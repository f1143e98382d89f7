/** Counting activities by type on the server, and the browser's scores and totals. */
module Counting {
  import opened Seqs
  import opened Domain

  function Occurrences(kind: ActivityType, activities: seq<Activity>): nat {
    if activities == [] then 0
    else (if activities[0].kind == kind then 1 else 0) + Occurrences(kind, activities[1..])
  }

  /** One entry per type present, in any order, holding its number of activities. */
  ghost predicate IsCountsOf(counts: seq<ActivityCount>, activities: seq<Activity>) {
    && (forall i, j :: 0 <= i < j < |counts| ==> counts[i].kind != counts[j].kind)
    && (forall c :: c in counts ==> 0 < c.count == Occurrences(c.kind, activities))
    && (forall a :: a in activities ==> exists c :: c in counts && c.kind == a.kind)
  }

  lemma {:induction false} OccurrencesAppend(kind: ActivityType, a: seq<Activity>, b: seq<Activity>)
    ensures Occurrences(kind, a + b) == Occurrences(kind, a) + Occurrences(kind, b)
  {
    if a == [] {
      assert a + b == b;
    } else {
      OccurrencesAppend(kind, a[1..], b);
      assert (a + b)[1..] == a[1..] + b;
    }
  }

  lemma OccurrencesPush(kind: ActivityType, a: seq<Activity>, x: Activity)
    ensures Occurrences(kind, a + [x]) == Occurrences(kind, a) + if x.kind == kind then 1 else 0
  {
    OccurrencesAppend(kind, a, [x]);
    assert Occurrences(kind, [x]) == (if x.kind == kind then 1 else 0) + Occurrences(kind, []);
  }

  /** `buildActivityCounts`: the order of the result is the map's, that is, arbitrary. */
  method BuildActivityCounts(activities: seq<Activity>) returns (counts: seq<ActivityCount>)
    ensures IsCountsOf(counts, activities)
  {
    var countMap: map<ActivityType, nat> := map[];
    for i := 0 to |activities|
      invariant forall k :: k in countMap ==> 0 < countMap[k] == Occurrences(k, activities[..i])
      invariant forall j :: 0 <= j < i ==> activities[j].kind in countMap
      invariant forall k :: k !in countMap ==> Occurrences(k, activities[..i]) == 0
    {
      var kind := activities[i].kind;
      forall k {
        OccurrencesPush(k, activities[..i], activities[i]);
      }
      assert activities[..i + 1] == activities[..i] + [activities[i]];
      countMap := countMap[kind := (if kind in countMap then countMap[kind] else 0) + 1];
    }
    assert activities[..|activities|] == activities;
    counts := ListCounts(countMap);
    forall a | a in activities
      ensures exists c :: c in counts && c.kind == a.kind
    {
      assert a.kind in countMap;
    }
  }

  method ListCounts(countMap: map<ActivityType, nat>) returns (counts: seq<ActivityCount>)
    ensures forall i, j :: 0 <= i < j < |counts| ==> counts[i].kind != counts[j].kind
    ensures forall c :: c in counts ==> c.kind in countMap && c.count == countMap[c.kind]
    ensures forall k :: k in countMap ==> exists c :: c in counts && c.kind == k
  {
    counts := [];
    var keys := countMap.Keys;
    while keys != {}
      invariant keys <= countMap.Keys
      invariant forall i, j :: 0 <= i < j < |counts| ==> counts[i].kind != counts[j].kind
      invariant forall c :: c in counts ==> c.kind in countMap && c.kind !in keys && c.count == countMap[c.kind]
      invariant forall k :: k in countMap && k !in keys ==> exists c :: c in counts && c.kind == k
      decreases keys
    {
      var t :| t in keys;
      ghost var before := counts;
      counts := counts + [ActivityCount(t, countMap[t])];
      keys := keys - {t};
      assert forall c :: c in before ==> c in counts;
      assert ActivityCount(t, countMap[t]) in counts;
    }
  }

  /** Every list of activities can be counted. */
  lemma {:induction false} SomeCounts(activities: seq<Activity>) returns (counts: seq<ActivityCount>)
    ensures IsCountsOf(counts, activities)
    decreases |activities|
  {
    if activities == [] {
      counts := [];
    } else {
      var kind := activities[0].kind;
      WithoutRest(kind, activities);
      var rest := SomeCounts(Without(kind, activities));
      counts := [ActivityCount(kind, Occurrences(kind, activities))] + rest;
      forall c | c in rest
        ensures c.kind != kind && c.count == Occurrences(c.kind, activities)
      {
        var a := OccurringActivity(c.kind, Without(kind, activities));
      }
      forall a | a in activities
        ensures exists c :: c in counts && c.kind == a.kind
      {
        if a.kind != kind {
          var c :| c in rest && c.kind == a.kind;
          assert c in counts;
        } else {
          assert counts[0] in counts;
        }
      }
    }
  }

  // ----- What the counts depend on

  /** Removing the element at `k` takes one occurrence of its type away. */
  lemma {:induction false} OccurrencesWithout(kind: ActivityType, b: seq<Activity>, k: nat)
    requires k < |b|
    ensures Occurrences(kind, b) == Occurrences(kind, b[..k] + b[k + 1..]) + (if b[k].kind == kind then 1 else 0)
  {
    OccurrencesAppend(kind, b[..k], b[k..]);
    OccurrencesAppend(kind, b[..k], b[k + 1..]);
    assert b == b[..k] + b[k..];
  }

  /** The order in which the goroutines happened to append does not show in the counts. */
  lemma {:induction false} OccurrencesOfMultiset(kind: ActivityType, a: seq<Activity>, b: seq<Activity>)
    requires multiset(a) == multiset(b)
    ensures Occurrences(kind, a) == Occurrences(kind, b) && |a| == |b|
  {
    if a == [] {
      assert |multiset(b)| == |b|;
    } else {
      assert a[0] in multiset(b);
      var k :| 0 <= k < |b| && b[k] == a[0];
      var rest := b[..k] + b[k + 1..];
      SameRest(a, b, k);
      OccurrencesWithout(kind, b, k);
      OccurrencesOfMultiset(kind, a[1..], rest);
    }
  }

  /** Any two valid counts of the same multiset of activities agree, up to order. */
  lemma CountsOfMultiset(c1: seq<ActivityCount>, a: seq<Activity>, c2: seq<ActivityCount>, b: seq<Activity>)
    requires IsCountsOf(c1, a) && IsCountsOf(c2, b) && multiset(a) == multiset(b)
    ensures forall c :: c in c1 <==> c in c2
  {
    SameCounts(c1, a, c2, b);
    SameCounts(c2, b, c1, a);
  }

  lemma SameCounts(c1: seq<ActivityCount>, a: seq<Activity>, c2: seq<ActivityCount>, b: seq<Activity>)
    requires IsCountsOf(c1, a) && IsCountsOf(c2, b) && multiset(a) == multiset(b)
    ensures forall c :: c in c1 ==> c in c2
  {
    forall c | c in c1
      ensures c in c2
    {
      OccurrencesOfMultiset(c.kind, a, b);
      var witnessActivity := OccurringActivity(c.kind, b);
      var d :| d in c2 && d.kind == witnessActivity.kind;
      assert d == c;
    }
  }

  lemma {:induction false} OccurringActivity(kind: ActivityType, activities: seq<Activity>) returns (a: Activity)
    requires 0 < Occurrences(kind, activities)
    ensures a in activities && a.kind == kind
  {
    if activities[0].kind == kind {
      a := activities[0];
    } else {
      a := OccurringActivity(kind, activities[1..]);
    }
  }

  // ----- Conservation

  function Total(counts: seq<ActivityCount>): nat {
    if counts == [] then 0 else counts[0].count + Total(counts[1..])
  }

  function Without(kind: ActivityType, activities: seq<Activity>): seq<Activity> {
    if activities == [] then []
    else (if activities[0].kind == kind then [] else [activities[0]]) + Without(kind, activities[1..])
  }

  lemma {:induction false} WithoutRest(kind: ActivityType, activities: seq<Activity>)
    ensures |activities| == Occurrences(kind, activities) + |Without(kind, activities)|
    ensures forall a :: a in Without(kind, activities) <==> a in activities && a.kind != kind
    ensures forall k :: k != kind ==> Occurrences(k, Without(kind, activities)) == Occurrences(k, activities)
  {
    if activities != [] {
      WithoutRest(kind, activities[1..]);
      var kept, later := Without(kind, activities), Without(kind, activities[1..]);
      if activities[0].kind != kind {
        assert kept == [activities[0]] + later && kept[1..] == later;
      } else {
        assert kept == later;
      }
    }
  }

  lemma CountsOfRest(counts: seq<ActivityCount>, activities: seq<Activity>)
    requires IsCountsOf(counts, activities) && counts != []
    ensures IsCountsOf(counts[1..], Without(counts[0].kind, activities))
  {
    var kind := counts[0].kind;
    WithoutRest(kind, activities);
    forall c | c in counts[1..]
      ensures 0 < c.count == Occurrences(c.kind, Without(kind, activities))
    {
      assert c in counts;
    }
    forall a | a in Without(kind, activities)
      ensures exists c :: c in counts[1..] && c.kind == a.kind
    {
      var c :| c in counts && c.kind == a.kind;
      assert c in counts[1..];
    }
  }

  /** The counts add up to the number of activities. */
  lemma {:induction false} CountsConserve(counts: seq<ActivityCount>, activities: seq<Activity>)
    requires IsCountsOf(counts, activities)
    ensures Total(counts) == |activities|
  {
    if activities != [] {
      assert activities[0] in activities;
    }
    if counts != [] {
      WithoutRest(counts[0].kind, activities);
      CountsOfRest(counts, activities);
      CountsConserve(counts[1..], Without(counts[0].kind, activities));
    }
  }

  // ----- Scores

  /** Weights per type; the browser reads non-negative numbers, taken here as exact. */
  datatype Weights = Weights(commit: real, merged: real, issue: real, review: real)

  predicate NonNegative(w: Weights) {
    0.0 <= w.commit && 0.0 <= w.merged && 0.0 <= w.issue && 0.0 <= w.review
  }

  /** Types the browser does not know weigh nothing. */
  function Weight(kind: ActivityType, w: Weights): real {
    match kind
    case Commit => w.commit
    case MergedPullRequest => w.merged
    case Issue => w.issue
    case PullRequestReview => w.review
    case Other(_) => 0.0
  }

  function Times(n: nat, x: real): real {
    if n == 0 then 0.0 else x + Times(n - 1, x)
  }

  lemma {:induction false} TimesIsProduct(n: nat, x: real)
    ensures Times(n, x) == n as real * x
  {
    if n != 0 {
      TimesIsProduct(n - 1, x);
      assert n as real * x == (1.0 + (n - 1) as real) * x == x + (n - 1) as real * x;
    }
  }

  function WeightedCounts(counts: seq<ActivityCount>, w: Weights): real {
    if counts == [] then 0.0
    else Times(counts[0].count, Weight(counts[0].kind, w)) + WeightedCounts(counts[1..], w)
  }

  function WeightedActivities(activities: seq<Activity>, w: Weights): real {
    if activities == [] then 0.0 else Weight(activities[0].kind, w) + WeightedActivities(activities[1..], w)
  }

  /** `Math.round(x * 10) / 10`; JavaScript rounds halves up. */
  function RoundTenth(x: real): real {
    (x * 10.0 + 0.5).Floor as real / 10.0
  }

  /** `computeScore`. */
  method ComputeScore(report: UserReport, w: Weights) returns (score: real)
    ensures score == RoundTenth(WeightedCounts(report.counts, w))
    ensures IsCountsOf(report.counts, report.activities) ==> NearestTenth(score, WeighedByType(report.activities, w))
  {
    var sum := 0.0;
    for i := 0 to |report.counts|
      invariant sum + WeightedCounts(report.counts[i..], w) == WeightedCounts(report.counts, w)
    {
      var c := report.counts[i];
      var part := Contribution(c, w);
      sum := sum + part;
    }
    score := RoundTenth(sum);
    if IsCountsOf(report.counts, report.activities) {
      ScoreAccurate(report, w);
    }
  }

  method Contribution(c: ActivityCount, w: Weights) returns (part: real)
    ensures part == Times(c.count, Weight(c.kind, w))
  {
    TimesIsProduct(c.count, Weight(c.kind, w));
    match c.kind {
      case Commit => part := c.count as real * w.commit;
      case MergedPullRequest => part := c.count as real * w.merged;
      case Issue => part := c.count as real * w.issue;
      case PullRequestReview => part := c.count as real * w.review;
      case Other(_) => part := 0.0;
    }
  }

  lemma {:induction false} WeightWithout(kind: ActivityType, activities: seq<Activity>, w: Weights)
    ensures WeightedActivities(activities, w)
         == Times(Occurrences(kind, activities), Weight(kind, w)) + WeightedActivities(Without(kind, activities), w)
  {
    if activities != [] {
      WeightWithout(kind, activities[1..], w);
      var kept, later := Without(kind, activities), Without(kind, activities[1..]);
      if activities[0].kind != kind {
        assert kept == [activities[0]] + later && kept[1..] == later;
      } else {
        assert kept == later;
      }
    }
  }

  /** Weighting the counts is weighting every single activity. */
  lemma {:induction false} WeightedCountsConserve(counts: seq<ActivityCount>, activities: seq<Activity>, w: Weights)
    requires IsCountsOf(counts, activities)
    ensures WeightedCounts(counts, w) == WeightedActivities(activities, w)
  {
    if activities != [] {
      assert activities[0] in activities;
    }
    if counts != [] {
      WeightWithout(counts[0].kind, activities, w);
      CountsOfRest(counts, activities);
      WeightedCountsConserve(counts[1..], Without(counts[0].kind, activities), w);
    }
  }

  lemma RoundingError(x: real)
    ensures x - 0.05 < RoundTenth(x) <= x + 0.05
  {
    var f := (x * 10.0 + 0.5).Floor;
    assert f as real <= x * 10.0 + 0.5 < f as real + 1.0;
  }

  lemma RoundingMonotone(x: real, y: real)
    requires x <= y
    ensures RoundTenth(x) <= RoundTenth(y)
  {
    assert x * 10.0 + 0.5 <= y * 10.0 + 0.5;
    assert (x * 10.0 + 0.5).Floor <= (y * 10.0 + 0.5).Floor;
  }

  /** How many of each type there are, each times the weight set for that type. */
  function WeighedByType(activities: seq<Activity>, w: Weights): real {
    Times(Occurrences(Commit, activities), w.commit) + Times(Occurrences(MergedPullRequest, activities), w.merged)
    + Times(Occurrences(Issue, activities), w.issue) + Times(Occurrences(PullRequestReview, activities), w.review)
  }

  lemma {:induction false} WeightedByType(activities: seq<Activity>, w: Weights)
    ensures WeightedActivities(activities, w) == WeighedByType(activities, w)
  {
    if activities != [] {
      WeightedByType(activities[1..], w);
    }
  }

  function Tenths(n: int): real {
    n as real / 10.0
  }

  /** The one number of tenths that is nearest, the upper one of two. */
  ghost predicate NearestTenth(score: real, exact: real) {
    (exists n :: score == Tenths(n)) && exact - 0.05 < score <= exact + 0.05
  }

  lemma RoundsToNearest(x: real)
    ensures NearestTenth(RoundTenth(x), x)
  {
    RoundingError(x);
    assert RoundTenth(x) == Tenths((x * 10.0 + 0.5).Floor);
  }

  /** No other number is the nearest tenth. */
  lemma OneNearestTenth(s: real, t: real, exact: real)
    requires NearestTenth(s, exact) && NearestTenth(t, exact)
    ensures s == t
  {
    var i :| s == Tenths(i);
    var j :| t == Tenths(j);
    assert -1.0 < (i - j) as real < 1.0;
  }

  /** The displayed score is, to the nearest tenth, the number of the report's activities of each type
      times the weight set for that type. */
  lemma ScoreAccurate(report: UserReport, w: Weights)
    requires IsCountsOf(report.counts, report.activities)
    ensures NearestTenth(RoundTenth(WeightedCounts(report.counts, w)), WeighedByType(report.activities, w))
  {
    WeightedCountsConserve(report.counts, report.activities, w);
    WeightedByType(report.activities, w);
    RoundsToNearest(WeightedCounts(report.counts, w));
  }

  /** One activity more, anywhere, never lowers the score. */
  lemma ScoreMonotone(r1: UserReport, r2: UserReport, extra: Activity, w: Weights)
    requires IsCountsOf(r1.counts, r1.activities) && IsCountsOf(r2.counts, r2.activities) && NonNegative(w)
    requires multiset(r2.activities) == multiset(r1.activities) + multiset{extra}
    ensures RoundTenth(WeightedCounts(r1.counts, w)) <= RoundTenth(WeightedCounts(r2.counts, w))
  {
    assert 0.0 <= Weight(extra.kind, w);
    WeightedCountsConserve(r1.counts, r1.activities, w);
    WeightedCountsConserve(r2.counts, r2.activities, w);
    WeightOfMultiset(r2.activities, [extra] + r1.activities, w);
    assert ([extra] + r1.activities)[1..] == r1.activities;
    RoundingMonotone(WeightedCounts(r1.counts, w), WeightedCounts(r2.counts, w));
  }

  lemma {:induction false} WeightedAppend(a: seq<Activity>, b: seq<Activity>, w: Weights)
    ensures WeightedActivities(a + b, w) == WeightedActivities(a, w) + WeightedActivities(b, w)
  {
    if a == [] {
      assert a + b == b;
    } else {
      WeightedAppend(a[1..], b, w);
      assert (a + b)[1..] == a[1..] + b;
    }
  }

  lemma {:induction false} WeightOfMultiset(a: seq<Activity>, b: seq<Activity>, w: Weights)
    requires multiset(a) == multiset(b)
    ensures WeightedActivities(a, w) == WeightedActivities(b, w)
  {
    if a == [] {
      assert |multiset(b)| == |b|;
    } else {
      assert a[0] in multiset(b);
      var k :| 0 <= k < |b| && b[k] == a[0];
      SameRest(a, b, k);
      WeightOfMultiset(a[1..], b[..k] + b[k + 1..], w);
      WeightedAppend(b[..k], b[k..], w);
      WeightedAppend(b[..k], b[k + 1..], w);
      assert b == b[..k] + b[k..];
    }
  }

  // ----- The summary card

  datatype Totals = Totals(activities: nat, commits: nat, merged: nat, issues: nat, reviews: nat)

  /** `getCountByType`: the first entry of that type, or 0. */
  function CountByType(counts: seq<ActivityCount>, kind: ActivityType): nat {
    if counts == [] then 0
    else if counts[0].kind == kind then counts[0].count
    else CountByType(counts[1..], kind)
  }

  lemma {:induction false} CountByTypeIs(counts: seq<ActivityCount>, kind: ActivityType)
    requires forall i, j :: 0 <= i < j < |counts| ==> counts[i].kind != counts[j].kind
    ensures forall c :: c in counts && c.kind == kind ==> CountByType(counts, kind) == c.count
    ensures (forall c :: c in counts ==> c.kind != kind) ==> CountByType(counts, kind) == 0
  {
    if counts != [] {
      CountByTypeIs(counts[1..], kind);
      assert forall c :: c in counts <==> c == counts[0] || c in counts[1..];
      assert counts[0] in counts;
    }
  }

  lemma CountByTypeCounts(report: UserReport, kind: ActivityType)
    requires IsCountsOf(report.counts, report.activities)
    ensures CountByType(report.counts, kind) == Occurrences(kind, report.activities)
  {
    CountByTypeIs(report.counts, kind);
    if 0 < Occurrences(kind, report.activities) {
      var a := OccurringActivity(kind, report.activities);
    }
  }

  /** The totals `buildSummaryCard` shows, which it reads off the counts. */
  function CardTotals(reports: seq<UserReport>): Totals {
    if reports == [] then Totals(0, 0, 0, 0, 0)
    else
      var t, r := CardTotals(reports[..|reports| - 1]), reports[|reports| - 1];
      Totals(t.activities + |r.activities|, t.commits + CountByType(r.counts, Commit),
             t.merged + CountByType(r.counts, MergedPullRequest), t.issues + CountByType(r.counts, Issue),
             t.reviews + CountByType(r.counts, PullRequestReview))
  }

  method SummaryTotals(reports: seq<UserReport>) returns (t: Totals)
    ensures t == CardTotals(reports)
  {
    var activities: nat, commits: nat, merged: nat, issues: nat, reviews: nat := 0, 0, 0, 0, 0;
    for i := 0 to |reports|
      invariant Totals(activities, commits, merged, issues, reviews) == CardTotals(reports[..i])
    {
      var r := reports[i];
      activities := activities + |r.activities|;
      commits := commits + CountByType(r.counts, Commit);
      merged := merged + CountByType(r.counts, MergedPullRequest);
      issues := issues + CountByType(r.counts, Issue);
      reviews := reviews + CountByType(r.counts, PullRequestReview);
      assert reports[..i + 1][..i] == reports[..i];
    }
    assert reports[..|reports|] == reports;
    t := Totals(activities, commits, merged, issues, reviews);
  }

  /** The same totals counted activity by activity, over one list of activities per member. */
  function TotalsOf(lists: seq<seq<Activity>>): Totals {
    if lists == [] then Totals(0, 0, 0, 0, 0)
    else
      var t, acts := TotalsOf(lists[..|lists| - 1]), lists[|lists| - 1];
      Totals(t.activities + |acts|, t.commits + Occurrences(Commit, acts),
             t.merged + Occurrences(MergedPullRequest, acts), t.issues + Occurrences(Issue, acts),
             t.reviews + Occurrences(PullRequestReview, acts))
  }

  /** The card shows what was fetched, in whatever order the activities arrived. */
  lemma {:induction false} CardIsExact(reports: seq<UserReport>, lists: seq<seq<Activity>>)
    requires |reports| == |lists|
    requires forall i :: 0 <= i < |reports| ==>
               IsCountsOf(reports[i].counts, reports[i].activities) && multiset(reports[i].activities) == multiset(lists[i])
    ensures CardTotals(reports) == TotalsOf(lists)
  {
    if reports != [] {
      var last := |reports| - 1;
      CardIsExact(reports[..last], lists[..last]);
      LastMember(reports[last], lists[last]);
    }
  }

  lemma LastMember(r: UserReport, acts: seq<Activity>)
    requires IsCountsOf(r.counts, r.activities) && multiset(r.activities) == multiset(acts)
    ensures |r.activities| == |acts|
    ensures forall kind :: CountByType(r.counts, kind) == Occurrences(kind, acts)
  {
    assert |multiset(acts)| == |acts| && |multiset(r.activities)| == |r.activities|;
    forall kind
      ensures CountByType(r.counts, kind) == Occurrences(kind, acts)
    {
      CountByTypeCounts(r, kind);
      OccurrencesOfMultiset(kind, r.activities, acts);
    }
  }

  lemma {:induction false} FourTypes(activities: seq<Activity>)
    requires forall a :: a in activities ==> !a.kind.Other?
    ensures |activities| == Occurrences(Commit, activities) + Occurrences(MergedPullRequest, activities)
                          + Occurrences(Issue, activities) + Occurrences(PullRequestReview, activities)
  {
    if activities != [] {
      assert activities[0] in activities;
      FourTypes(activities[1..]);
    }
  }

  /** The four type totals add up to the total of activities. */
  lemma {:induction false} TotalsAddUp(lists: seq<seq<Activity>>)
    requires forall acts, a :: acts in lists && a in acts ==> !a.kind.Other?
    ensures var t := TotalsOf(lists); t.activities == t.commits + t.merged + t.issues + t.reviews
  {
    if lists != [] {
      assert forall acts :: acts in lists[..|lists| - 1] ==> acts in lists;
      TotalsAddUp(lists[..|lists| - 1]);
      assert lists[|lists| - 1] in lists;
      FourTypes(lists[|lists| - 1]);
    }
  }
}
