/** What reaches the report page, over every run of the pipeline: every schedule of the
    goroutines, every filling of the channel, every cutting of the response into chunks, and a
    client that may go away at any moment. */
module EndToEnd {
  import opened Seqs
  import opened Domain
  import opened Counting
  import opened EventStream
  import opened Browser
  import opened Pipeline
  import Gather

  /** What the calls made for each member bring, in an order no run need follow. */
  function Fetched(jobs: seq<Job>): (lists: seq<seq<Activity>>)
    ensures |lists| == |jobs|
    ensures forall i :: 0 <= i < |jobs| ==> lists[i] == Gather.InOrder(jobs[i].scripts)
  {
    seq(|jobs|, i requires 0 <= i < |jobs| => Gather.InOrder(jobs[i].scripts))
  }

  /** The report of one member: every successful batch once, and counted right. */
  ghost predicate ReportFor(job: Job, report: UserReport) {
    && report.user == job.user
    && multiset(report.activities) == multiset(Gather.InOrder(job.scripts))
    && IsCountsOf(report.counts, report.activities)
  }

  ghost predicate ReportsFor(jobs: seq<Job>, reports: seq<UserReport>) {
    |reports| <= |jobs| && forall i :: 0 <= i < |reports| ==> ReportFor(jobs[i], reports[i])
  }

  /** The page is finished and shows exactly what was fetched, or the error. */
  ghost predicate Arrived(setup: Setup, v: View) {
    match setup
    case Rejected(message) => v == View([], Failed(if message == "" then "Unknown error" else message))
    case Accepted(jobs) =>
      |v.allReports| == |jobs| && ReportsFor(jobs, v.allReports) && v.status == Done(TotalsOf(Fetched(jobs)))
  }

  /** The page is still filling, and nothing on it is wrong. */
  ghost predicate Filling(setup: Setup, v: View) {
    v.status == Streaming && if setup.Rejected? then v.allReports == [] else ReportsFor(setup.jobs, v.allReports)
  }

  lemma {:induction false} ShownUpTo(jobs: seq<Job>, events: seq<ReportEvent>)
    requires UpTo(jobs, events, |events|)
    ensures Shown(events).status == Streaming && |Shown(events).allReports| == |events|
    ensures forall i :: 0 <= i < |events| ==> Shown(events).allReports[i] == events[i].report
  {
    if events != [] {
      ShownUpTo(jobs, events[..|events| - 1]);
    }
  }

  lemma UpToReports(jobs: seq<Job>, events: seq<ReportEvent>)
    requires UpTo(jobs, events, |events|)
    ensures Shown(events).status == Streaming && |Shown(events).allReports| == |events|
    ensures ReportsFor(jobs, Shown(events).allReports)
  {
    ShownUpTo(jobs, events);
    forall i | 0 <= i < |events|
      ensures ReportFor(jobs[i], Shown(events).allReports[i])
    {
      Gather.MergeConserves(jobs[i].scripts, events[i].report.activities);
    }
  }

  lemma FullStreamArrives(setup: Setup, events: seq<ReportEvent>)
    requires FullStream(setup, events)
    ensures Arrived(setup, Shown(events))
  {
    if setup.Accepted? {
      var jobs := setup.jobs;
      var reports := Shown(events[..|jobs|]).allReports;
      UpToReports(jobs, events[..|jobs|]);
      CardIsExact(reports, Fetched(jobs));
    } else {
      assert events[..0] == [];
    }
  }

  lemma PrefixShows(setup: Setup, events: seq<ReportEvent>)
    requires StreamPrefix(setup, events)
    ensures Arrived(setup, Shown(events)) || Filling(setup, Shown(events))
  {
    if FullStream(setup, events) {
      FullStreamArrives(setup, events);
    } else if setup.Accepted? {
      UpToReports(setup.jobs, events);
    }
  }

  // ----- Runs

  ghost predicate Stuck(setup: Setup, codec: Codec, s: State) {
    forall s' :: !Next(setup, codec, s, s')
  }

  /** An infinite run of the machine, which stays where it is only when no step is possible. */
  ghost predicate Run(setup: Setup, codec: Codec, run: nat -> State) {
    && run(0) == Start(setup)
    && forall i: nat :: Next(setup, codec, run(i), run(i + 1)) || (Stuck(setup, codec, run(i)) && run(i + 1) == run(i))
  }

  ghost function Successor(setup: Setup, codec: Codec, s: State): State {
    if Stuck(setup, codec, s) then s
    else
      var s' :| Next(setup, codec, s, s');
      s'
  }

  ghost function StateAt(setup: Setup, codec: Codec, i: nat): State {
    if i == 0 then Start(setup) else Successor(setup, codec, StateAt(setup, codec, i - 1))
  }

  lemma SuccessorFollows(setup: Setup, codec: Codec, s: State)
    ensures var s' := Successor(setup, codec, s);
            Next(setup, codec, s, s') || (Stuck(setup, codec, s) && s' == s)
  {
  }

  /** Every setup has a run. */
  lemma RunExists(setup: Setup, codec: Codec) returns (run: nat -> State)
    ensures Run(setup, codec, run)
  {
    run := (i: nat) => StateAt(setup, codec, i);
    forall i: nat
      ensures Next(setup, codec, run(i), run(i + 1)) || (Stuck(setup, codec, run(i)) && run(i + 1) == run(i))
    {
      SuccessorFollows(setup, codec, StateAt(setup, codec, i));
    }
  }

  lemma {:induction false} RunInv(setup: Setup, codec: Codec, run: nat -> State, i: nat)
    requires Run(setup, codec, run)
    ensures Inv(setup, codec, run(i))
  {
    if i == 0 {
      StartInv(setup, codec);
    } else {
      RunInv(setup, codec, run, i - 1);
      assert run(i - 1 + 1) == run(i);
      if Next(setup, codec, run(i - 1), run(i)) {
        NextKeeps(setup, codec, run(i - 1), run(i));
      }
    }
  }

  /** At every moment of every run, with or without a client: what was emitted is what was
      written followed by what the channel holds, at most sixteen events; and the page shows
      the right reports of the first members, and says it is done only when it has them all. */
  lemma NeverWrong(setup: Setup, codec: Codec, run: nat -> State, i: nat)
    requires Faithful(codec) && Run(setup, codec, run)
    ensures var s := run(i);
            && s.producer.emitted == s.link.written + s.channel && |s.channel| <= CAPACITY
            && StreamPrefix(setup, s.producer.emitted)
            && (Arrived(setup, s.link.view) || Filling(setup, s.link.view))
  {
    RunInv(setup, codec, run, i);
    var s := run(i);
    var k := ViewOfPrefix(codec, s.link);
    assert s.link.written[..k] == s.producer.emitted[..k];
    PrefixOfPrefix(setup, s.producer.emitted, k);
    PrefixShows(setup, s.link.written[..k]);
  }

  lemma ReportsAlwaysRight(jobs: seq<Job>, codec: Codec, run: nat -> State, i: nat)
    requires Faithful(codec) && Run(Accepted(jobs), codec, run)
    ensures ReportsFor(jobs, run(i).link.view.allReports)
  {
    NeverWrong(Accepted(jobs), codec, run, i);
  }

  lemma {:induction false} Settles(setup: Setup, codec: Codec, run: nat -> State, i: nat) returns (n: nat)
    requires Run(setup, codec, run)
    ensures i <= n && Terminal(run(n))
    decreases MeasureOf(setup, run(i)).rank, MeasureOf(setup, run(i)).unspawned, MeasureOf(setup, run(i)).work,
              MeasureOf(setup, run(i)).queued, MeasureOf(setup, run(i)).open, MeasureOf(setup, run(i)).connected,
              MeasureOf(setup, run(i)).unread
  {
    RunInv(setup, codec, run, i);
    if Terminal(run(i)) {
      n := i;
    } else {
      var a := NeverStuck(setup, codec, run(i));
      assert Next(setup, codec, run(i), Apply(setup, codec, run(i), a).value);
      NextDecreases(setup, codec, run(i), run(i + 1));
      n := Settles(setup, codec, run, i + 1);
    }
  }

  /** Every run comes to an end with the whole stream written and the channel empty. If the client
      is still there, its page then shows one report per loaded member, in load order, each with
      exactly the activities fetched for that member, and totals that count them all. */
  lemma EveryReportArrives(setup: Setup, codec: Codec, run: nat -> State) returns (n: nat)
    requires Faithful(codec) && Run(setup, codec, run)
    ensures Terminal(run(n)) && FullStream(setup, run(n).link.written) && run(n).channel == []
    ensures run(n).link.connected ==> Arrived(setup, run(n).link.view)
  {
    n := Settles(setup, codec, run, 0);
    RunInv(setup, codec, run, n);
    var s := run(n);
    assert s.link.written + [] == s.link.written;
    if s.link.connected {
      var k := ViewOfPrefix(codec, s.link);
      assert s.link.written[..k] == s.link.written;
      FullStreamArrives(setup, s.link.written);
    }
  }
}
