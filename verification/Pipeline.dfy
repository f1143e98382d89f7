/** A report from the report service to the report page: `GenerateReport` and its goroutines, the
    channel of capacity 16, the handler's consumer loop, the connection and the browser, as one
    machine whose parts move in any order. */
module Pipeline {
  import opened Seqs
  import opened Utf8
  import opened Domain
  import opened Counting
  import opened EventStream
  import opened Browser
  import Gather

  const CAPACITY := 16

  /** One loaded member and what the calls made for it will bring. */
  datatype Job = Job(user: User, scripts: seq<Gather.Script>)

  /** What `GenerateReport` finds in the database: an error, or the loaded members in order. */
  datatype Setup = Rejected(message: string) | Accepted(jobs: seq<Job>)

  /** Where `GenerateReport` is. */
  datatype Main =
    | Fetching(m: nat)
    | Sending(m: nat, report: UserReport)
    | Finishing(last: ReportEvent)
    | Closing
    | Closed

  /** The report service's side. */
  datatype Producer = Producer(main: Main, gather: Gather.State, emitted: seq<ReportEvent>)

  /** The handler's writer, the connection and the browser. */
  datatype Link = Link(connected: bool, wire: seq<Byte>, reading: Reading, view: View,
                       written: seq<ReportEvent>, delivered: seq<Byte>)

  /** `emitted`, `written` and `delivered` record what has passed and steer nothing. */
  datatype State = State(producer: Producer, channel: seq<ReportEvent>, drained: bool, link: Link)

  /** The member after the last one is the `COMPLETE` event. */
  function MemberFrom(jobs: seq<Job>, m: nat): Main {
    if m < |jobs| then Fetching(m) else Finishing(CompleteEvent)
  }

  function Start(setup: Setup): State {
    var main := match setup case Rejected(message) => Finishing(ErrorEvent(message)) case Accepted(jobs) => MemberFrom(jobs, 0);
    State(Producer(main, Gather.INITIAL, []), [], false, Link(true, [], UNREAD, BLANK, [], []))
  }

  datatype Action =
    | Spawn                                   // start the next group's goroutine
    | Routine(t: nat)                         // one step of a goroutine
    | Assemble(counts: seq<ActivityCount>)    // `wg.Wait()` returns; count and build the report
    | Send                                    // send on the channel
    | CloseChannel
    | Receive                                 // the handler takes an event and writes it
    | EndLoop                                 // the handler's range loop sees the closed channel
    | Deliver(n: nat)                         // the browser reads a chunk of n bytes
    | Disconnect                              // the client goes away

  /** The producer after a step, and what the step puts into the channel. */
  datatype Produced = Produced(producer: Producer, sent: seq<ReportEvent>)

  ghost function ProducerStep(setup: Setup, p: Producer, room: bool, a: Action): Option<Produced> {
    match (p.main, a)
    case (Fetching(m), Spawn) =>
      if setup.Accepted? && m < |setup.jobs| && |p.gather.routines| < |setup.jobs[m].scripts| then
        Some(Produced(p.(gather := Gather.Spawn(p.gather)), []))
      else None
    case (Fetching(m), Routine(t)) =>
      if setup.Accepted? && m < |setup.jobs| && t < |p.gather.routines| <= |setup.jobs[m].scripts| then
        var next := Gather.Advance(setup.jobs[m].scripts, p.gather, t);
        if next.Some? then Some(Produced(p.(gather := next.value), [])) else None
      else None
    case (Fetching(m), Assemble(counts)) =>
      if setup.Accepted? && m < |setup.jobs| && |p.gather.routines| == |setup.jobs[m].scripts| && p.gather.waiting == 0
         && IsCountsOf(counts, p.gather.shared) then
        Some(Produced(p.(main := Sending(m, UserReport(setup.jobs[m].user, counts, p.gather.shared))), []))
      else None
    case (Sending(m, report), Send) =>
      if setup.Accepted? && room then
        var e := UserReportEvent(report);
        Some(Produced(Producer(MemberFrom(setup.jobs, m + 1), Gather.INITIAL, p.emitted + [e]), [e]))
      else None
    case (Finishing(last), Send) =>
      if room then Some(Produced(Producer(Closing, p.gather, p.emitted + [last]), [last])) else None
    case (Closing, CloseChannel) => Some(Produced(p.(main := Closed), []))
    case _ => None
  }

  /** The handler writes the event's frame; once the client is gone the write fails and the
      handler, which ignores the error, goes on. */
  function Write(codec: Codec, l: Link, e: ReportEvent): Link {
    l.(written := l.written + [e],
       wire := l.wire + if l.connected then Encode(Frame(ToEvent(codec, e))) else [])
  }

  /** The browser reads a chunk of `n` bytes. */
  function ReadFrom(codec: Codec, l: Link, n: nat): Link
    requires n <= |l.wire| && Sound(l.reading.decoder)
  {
    var reading := ReadChunk(l.reading, l.wire[..n]);
    l.(wire := l.wire[n..], delivered := l.delivered + l.wire[..n], reading := reading,
       view := DispatchAll(codec, l.view, reading.events[|l.reading.events|..]))
  }

  ghost function Apply(setup: Setup, codec: Codec, s: State, a: Action): Option<State>
    requires Sound(s.link.reading.decoder)
  {
    match a
    case Receive =>
      if s.channel != [] && !s.drained then
        Some(s.(channel := s.channel[1..], link := Write(codec, s.link, s.channel[0])))
      else None
    case EndLoop =>
      if s.channel == [] && s.producer.main.Closed? && !s.drained then Some(s.(drained := true)) else None
    case Deliver(n) =>
      if s.link.connected && 0 < n <= |s.link.wire| then Some(s.(link := ReadFrom(codec, s.link, n))) else None
    case Disconnect =>
      if s.link.connected then Some(s.(link := s.link.(connected := false))) else None
    case _ =>
      match ProducerStep(setup, s.producer, |s.channel| < CAPACITY, a)
      case Some(Produced(producer, sent)) => Some(s.(producer := producer, channel := s.channel + sent))
      case None => None
  }

  ghost predicate Next(setup: Setup, codec: Codec, s: State, s': State) {
    Sound(s.link.reading.decoder) && exists a :: Apply(setup, codec, s, a) == Some(s')
  }

  // ----- The producer: what has been emitted

  ghost predicate Matches(job: Job, report: UserReport) {
    && report.user == job.user
    && IsCountsOf(report.counts, report.activities)
    && Gather.Merges(job.scripts, report.activities)
  }

  /** The reports of the first `m` members, in load order. */
  ghost predicate UpTo(jobs: seq<Job>, events: seq<ReportEvent>, m: nat) {
    && m == |events| <= |jobs|
    && forall i :: 0 <= i < m ==> events[i].UserReportEvent? && Matches(jobs[i], events[i].report)
  }

  /** One ERROR, or one USER_REPORT per member and then one COMPLETE. */
  ghost predicate FullStream(setup: Setup, events: seq<ReportEvent>) {
    match setup
    case Rejected(message) => events == [ErrorEvent(message)]
    case Accepted(jobs) =>
      |events| == |jobs| + 1 && UpTo(jobs, events[..|jobs|], |jobs|) && events[|jobs|] == CompleteEvent
  }

  ghost predicate StreamPrefix(setup: Setup, events: seq<ReportEvent>) {
    FullStream(setup, events) || if setup.Rejected? then events == [] else UpTo(setup.jobs, events, |events|)
  }

  ghost predicate ProducerInv(setup: Setup, p: Producer) {
    match p.main
    case Fetching(m) =>
      setup.Accepted? && m < |setup.jobs| && Gather.Inv(setup.jobs[m].scripts, p.gather) && UpTo(setup.jobs, p.emitted, m)
    case Sending(m, report) =>
      setup.Accepted? && m < |setup.jobs| && Matches(setup.jobs[m], report) && UpTo(setup.jobs, p.emitted, m)
    case Finishing(last) =>
      (match setup
       case Rejected(message) => last == ErrorEvent(message) && p.emitted == []
       case Accepted(jobs) => last == CompleteEvent && UpTo(jobs, p.emitted, |jobs|))
    case Closing => FullStream(setup, p.emitted)
    case Closed => FullStream(setup, p.emitted)
  }

  lemma ProducerKeeps(setup: Setup, p: Producer, room: bool, a: Action)
    requires ProducerInv(setup, p) && ProducerStep(setup, p, room, a).Some?
    ensures var r := ProducerStep(setup, p, room, a).value;
            ProducerInv(setup, r.producer) && r.producer.emitted == p.emitted + r.sent
    ensures var r := ProducerStep(setup, p, room, a).value;
            |r.sent| <= (if room then 1 else 0) && !p.main.Closed?
  {
    match (p.main, a) {
      case (Fetching(m), Spawn) => Gather.SpawnKeeps(setup.jobs[m].scripts, p.gather);
      case (Fetching(m), Routine(t)) => Gather.AdvanceKeeps(setup.jobs[m].scripts, p.gather, t);
      case (Fetching(m), Assemble(counts)) => Gather.WaitGathersAll(setup.jobs[m].scripts, p.gather);
      case (Finishing(last), Send) =>
        if setup.Accepted? {
          assert (p.emitted + [last])[..|setup.jobs|] == p.emitted;
        }
      case _ =>
    }
  }

  lemma PrefixOfPrefix(setup: Setup, events: seq<ReportEvent>, k: nat)
    requires StreamPrefix(setup, events) && k <= |events|
    ensures StreamPrefix(setup, events[..k])
  {
    if k == |events| {
      assert events[..k] == events;
    } else if setup.Accepted? && FullStream(setup, events) {
      assert events[..|setup.jobs|][..k] == events[..k];
    }
  }

  // ----- The connection and the browser

  ghost predicate LinkInv(codec: Codec, l: Link) {
    var sent := Encode(Frames(ToEvents(codec, l.written)));
    && l.delivered <= sent
    && (l.connected ==> l.delivered + l.wire == sent)
    && Sound(l.reading.decoder)
    && HasRead(l.reading, l.delivered)
    && l.view == DispatchAll(codec, BLANK, l.reading.events)
  }

  lemma SentGrows(codec: Codec, written: seq<ReportEvent>, e: ReportEvent)
    ensures Encode(Frames(ToEvents(codec, written + [e])))
         == Encode(Frames(ToEvents(codec, written))) + Encode(Frame(ToEvent(codec, e)))
  {
    assert ToEvents(codec, written + [e]) == ToEvents(codec, written) + [ToEvent(codec, e)];
    FramesPush(ToEvents(codec, written), ToEvent(codec, e));
    EncodeAppend(Frames(ToEvents(codec, written)), Frame(ToEvent(codec, e)));
  }

  lemma WriteKeeps(codec: Codec, l: Link, e: ReportEvent)
    requires LinkInv(codec, l)
    ensures LinkInv(codec, Write(codec, l, e))
  {
    SentGrows(codec, l.written, e);
    var bytes := Encode(Frame(ToEvent(codec, e)));
    assert l.delivered + (l.wire + bytes) == l.delivered + l.wire + bytes;
  }

  lemma ReadKeeps(codec: Codec, l: Link, n: nat)
    requires LinkInv(codec, l) && l.connected && n <= |l.wire|
    ensures LinkInv(codec, ReadFrom(codec, l, n))
  {
    var chunk := l.wire[..n];
    assert l.delivered + chunk + l.wire[n..] == l.delivered + l.wire;
    ReadMore(l.reading, l.delivered, chunk);
    ViewKeeps(codec, l.reading, l.view, ReadChunk(l.reading, chunk));
  }

  lemma ViewKeeps(codec: Codec, before: Reading, view: View, after: Reading)
    requires before.events <= after.events && view == DispatchAll(codec, BLANK, before.events)
    ensures DispatchAll(codec, view, after.events[|before.events|..]) == DispatchAll(codec, BLANK, after.events)
  {
    assert after.events == before.events + after.events[|before.events|..];
    DispatchAppend(codec, BLANK, before.events, after.events[|before.events|..]);
  }

  /** What was read is a prefix of what was written, and all of it once nothing is under way. */
  lemma ReadSoFar(codec: Codec, l: Link)
    requires Faithful(codec) && LinkInv(codec, l)
    ensures l.reading.events <= ToEvents(codec, l.written)
    ensures l.connected && l.wire == [] ==> l.reading.events == ToEvents(codec, l.written)
  {
    var events := ToEvents(codec, l.written);
    var rest := Encode(Frames(events))[|l.delivered|..];
    EventsPrintable(codec, l.written);
    ReadPrefix(l.reading, l.delivered, rest, events);
    assert l.connected && l.wire == [] ==> l.delivered + l.wire == l.delivered;
  }

  /** At any moment the page shows what some prefix of the written events shows. */
  lemma ViewOfPrefix(codec: Codec, l: Link) returns (k: nat)
    requires Faithful(codec) && LinkInv(codec, l)
    ensures k <= |l.written| && l.view == Shown(l.written[..k])
    ensures l.connected && l.wire == [] ==> k == |l.written|
  {
    ReadSoFar(codec, l);
    k := |l.reading.events|;
    assert l.reading.events == ToEvents(codec, l.written[..k]);
    DispatchShows(codec, l.written[..k]);
  }

  // ----- The whole machine

  ghost predicate ChannelInv(s: State) {
    && s.producer.emitted == s.link.written + s.channel
    && |s.channel| <= CAPACITY
    && (s.drained ==> s.producer.main.Closed? && s.channel == [])
  }

  ghost predicate Inv(setup: Setup, codec: Codec, s: State) {
    ProducerInv(setup, s.producer) && ChannelInv(s) && LinkInv(codec, s.link)
  }

  lemma StartInv(setup: Setup, codec: Codec)
    ensures Inv(setup, codec, Start(setup))
  {
    assert ToEvents(codec, []) == [];
    assert HasRead(UNREAD, []);
  }

  predicate OfProducer(a: Action) {
    a.Spawn? || a.Routine? || a.Assemble? || a.Send? || a.CloseChannel?
  }

  /** What a move of the producer changes. */
  lemma ProducerMove(setup: Setup, codec: Codec, s: State, a: Action, s': State)
    requires Sound(s.link.reading.decoder) && OfProducer(a) && Apply(setup, codec, s, a) == Some(s')
    ensures var r := ProducerStep(setup, s.producer, |s.channel| < CAPACITY, a);
            && r.Some? && s'.producer == r.value.producer && s'.channel == s.channel + r.value.sent
            && s'.link == s.link && s'.drained == s.drained
  {
  }

  lemma ProducerMoveKeeps(setup: Setup, codec: Codec, s: State, a: Action, s': State)
    requires Inv(setup, codec, s) && OfProducer(a) && Apply(setup, codec, s, a) == Some(s')
    ensures Inv(setup, codec, s')
  {
    var room := |s.channel| < CAPACITY;
    ProducerKeeps(setup, s.producer, room, a);
    ProducerMove(setup, codec, s, a, s');
    var sent := ProducerStep(setup, s.producer, room, a).value.sent;
    Regroup(s.link.written, s.channel, sent);
  }

  /** What receiving an event changes. */
  lemma Received(setup: Setup, codec: Codec, s: State, s': State)
    requires Sound(s.link.reading.decoder) && Apply(setup, codec, s, Receive) == Some(s')
    ensures s.channel != [] && !s.drained && s'.producer == s.producer && s'.channel == s.channel[1..]
    ensures s'.link == Write(codec, s.link, s.channel[0]) && s'.drained == s.drained
  {
  }

  lemma ReceivedChannel(s: State, s': State, codec: Codec)
    requires ChannelInv(s) && s.channel != [] && s'.producer == s.producer && s'.channel == s.channel[1..]
    requires s'.link == Write(codec, s.link, s.channel[0]) && s'.drained == s.drained
    ensures ChannelInv(s')
  {
    assert [s.channel[0]] + s.channel[1..] == s.channel;
    Regroup(s.link.written, [s.channel[0]], s.channel[1..]);
  }

  lemma HandlerMoveKeeps(setup: Setup, codec: Codec, s: State, a: Action, s': State)
    requires Inv(setup, codec, s) && (a.Receive? || a.EndLoop?) && Apply(setup, codec, s, a) == Some(s')
    ensures Inv(setup, codec, s')
  {
    if a.Receive? {
      Received(setup, codec, s, s');
      ReceivedChannel(s, s', codec);
      WriteKeeps(codec, s.link, s.channel[0]);
    } else {
      Ended(setup, codec, s, s');
    }
  }

  lemma Ended(setup: Setup, codec: Codec, s: State, s': State)
    requires Sound(s.link.reading.decoder) && Apply(setup, codec, s, EndLoop) == Some(s')
    ensures s.channel == [] && s.producer.main.Closed? && s' == s.(drained := true)
  {
  }

  lemma ClientMoveKeeps(setup: Setup, codec: Codec, s: State, a: Action, s': State)
    requires Inv(setup, codec, s) && (a.Deliver? || a.Disconnect?) && Apply(setup, codec, s, a) == Some(s')
    ensures Inv(setup, codec, s')
  {
    if a.Deliver? {
      ReadKeeps(codec, s.link, a.n);
    }
  }

  /** Every step keeps the invariant, whoever makes it. */
  lemma NextKeeps(setup: Setup, codec: Codec, s: State, s': State)
    requires Inv(setup, codec, s) && Next(setup, codec, s, s')
    ensures Inv(setup, codec, s')
  {
    var a: Action :| Apply(setup, codec, s, a) == Some(s');
    if OfProducer(a) {
      ProducerMoveKeeps(setup, codec, s, a, s');
    } else if a.Receive? || a.EndLoop? {
      HandlerMoveKeeps(setup, codec, s, a, s');
    } else {
      ClientMoveKeeps(setup, codec, s, a, s');
    }
  }

  /** Everything has been emitted and written, and read unless the client has gone. */
  predicate Terminal(s: State) {
    s.drained && (s.link.connected ==> s.link.wire == [])
  }

  lemma FetchingMoves(setup: Setup, p: Producer) returns (a: Action)
    requires ProducerInv(setup, p) && p.main.Fetching?
    ensures (a.Spawn? || a.Routine? || a.Assemble?) && ProducerStep(setup, p, true, a).Some?
  {
    var scripts := setup.jobs[p.main.m].scripts;
    if |p.gather.routines| < |scripts| {
      a := Spawn;
    } else if p.gather.waiting == 0 {
      var counts := SomeCounts(p.gather.shared);
      a := Assemble(counts);
    } else {
      var t := Gather.SomeoneCanMove(scripts, p.gather);
      a := Routine(t);
    }
  }

  /** With room in the channel the producer always has a step until it has closed the channel. */
  lemma ProducerMoves(setup: Setup, p: Producer) returns (a: Action)
    requires ProducerInv(setup, p) && !p.main.Closed?
    ensures OfProducer(a) && ProducerStep(setup, p, true, a).Some?
  {
    match p.main {
      case Fetching(m) => a := FetchingMoves(setup, p);
      case Sending(_, _) => a := Send;
      case Finishing(_) => a := Send;
      case Closing => a := CloseChannel;
    }
  }

  /** In every other state some step is possible that is not the client going away. */
  lemma NeverStuck(setup: Setup, codec: Codec, s: State) returns (a: Action)
    requires Inv(setup, codec, s) && !Terminal(s)
    ensures !a.Disconnect? && Apply(setup, codec, s, a).Some?
  {
    if s.drained {
      a := Deliver(|s.link.wire|);
    } else if s.channel != [] {
      a := Receive;
    } else if s.producer.main.Closed? {
      a := EndLoop;
    } else {
      a := ProducerMoves(setup, s.producer);
    }
  }

  // ----- The measure

  function Rank(setup: Setup, main: Main): nat {
    var members := if setup.Accepted? then |setup.jobs| else 0;
    match main
    case Fetching(m) => if m < members then 3 + 2 * (members - m) else 0
    case Sending(m, _) => if m < members then 2 + 2 * (members - m) else 0
    case Finishing(_) => 2
    case Closing => 1
    case Closed => 0
  }

  /** Goroutines still to start, and steps the started ones still have to make. */
  function Unspawned(setup: Setup, p: Producer): nat {
    match p.main
    case Fetching(m) =>
      if setup.Accepted? && m < |setup.jobs| && |p.gather.routines| <= |setup.jobs[m].scripts|
      then |setup.jobs[m].scripts| - |p.gather.routines| else 0
    case _ => 0
  }

  function Work(setup: Setup, p: Producer): nat {
    match p.main
    case Fetching(m) =>
      if setup.Accepted? && m < |setup.jobs| && |p.gather.routines| <= |setup.jobs[m].scripts|
      then Gather.Work(setup.jobs[m].scripts, p.gather.routines) else 0
    case _ => 0
  }

  lemma ProducerDecreases(setup: Setup, p: Producer, room: bool, a: Action)
    requires ProducerInv(setup, p) && ProducerStep(setup, p, room, a).Some?
    ensures var p' := ProducerStep(setup, p, room, a).value.producer;
            (Rank(setup, p.main), Unspawned(setup, p), Work(setup, p) decreases to
             Rank(setup, p'.main), Unspawned(setup, p'), Work(setup, p'))
  {
    if p.main.Fetching? {
      FetchingDecreases(setup, p, room, a);
    }
  }

  lemma FetchingDecreases(setup: Setup, p: Producer, room: bool, a: Action)
    requires p.main.Fetching? && ProducerInv(setup, p) && ProducerStep(setup, p, room, a).Some?
    ensures var p' := ProducerStep(setup, p, room, a).value.producer;
            (Rank(setup, p.main), Unspawned(setup, p), Work(setup, p) decreases to
             Rank(setup, p'.main), Unspawned(setup, p'), Work(setup, p'))
  {
    if a.Routine? {
      Gather.AdvanceWorks(setup.jobs[p.main.m].scripts, p.gather, a.t);
    }
  }

  /** What grows smaller with every step, most significant first. */
  datatype Measure = Measure(rank: nat, unspawned: nat, work: nat, queued: nat, open: bool, connected: bool, unread: nat)

  function MeasureOf(setup: Setup, s: State): Measure {
    Measure(Rank(setup, s.producer.main), Unspawned(setup, s.producer), Work(setup, s.producer),
            |s.channel|, !s.drained, s.link.connected, |s.link.wire|)
  }

  ghost predicate Below(m': Measure, m: Measure) {
    (m.rank, m.unspawned, m.work, m.queued, m.open, m.connected, m.unread decreases to
     m'.rank, m'.unspawned, m'.work, m'.queued, m'.open, m'.connected, m'.unread)
  }

  lemma ProducerMoveDecreases(setup: Setup, codec: Codec, s: State, a: Action, s': State)
    requires ProducerInv(setup, s.producer) && Sound(s.link.reading.decoder)
    requires OfProducer(a) && Apply(setup, codec, s, a) == Some(s')
    ensures Below(MeasureOf(setup, s'), MeasureOf(setup, s))
  {
    ProducerDecreases(setup, s.producer, |s.channel| < CAPACITY, a);
  }

  lemma OtherMoveDecreases(setup: Setup, codec: Codec, s: State, a: Action, s': State)
    requires Sound(s.link.reading.decoder) && !OfProducer(a) && Apply(setup, codec, s, a) == Some(s')
    ensures Below(MeasureOf(setup, s'), MeasureOf(setup, s))
  {
    assert s'.producer == s.producer;
  }

  /** Every step makes the measure smaller, so no run goes on for ever. */
  lemma NextDecreases(setup: Setup, codec: Codec, s: State, s': State)
    requires Inv(setup, codec, s) && Next(setup, codec, s, s')
    ensures Below(MeasureOf(setup, s'), MeasureOf(setup, s))
  {
    var a: Action :| Apply(setup, codec, s, a) == Some(s');
    if OfProducer(a) {
      ProducerMoveDecreases(setup, codec, s, a, s');
    } else {
      OtherMoveDecreases(setup, codec, s, a, s');
    }
  }
}
