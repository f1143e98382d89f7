/** The GitHub fetcher: commits and reviews per repository, then issues and merged pull requests by
    one search per repository name. */
module GitHubFetchers {
  import opened Seqs
  import opened Domain
  import opened Gather
  import opened Calls

  datatype GitHub = GitHub(
    commits: (string, string) -> Option<seq<Item>>,       // username, repository
    reviewed: (string, string) -> Option<seq<Change>>,    // username, repository
    reviews: (string, nat) -> Option<seq<Remark>>,        // repository, number
    issues: (string, string) -> Option<seq<Item>>,        // username, repository
    merged: (string, string) -> Option<seq<Item>>)        // username, repository

  function GitHubReviewCall(server: GitHub, q: Query, repo: string): Change -> Outcome {
    (change: Change) =>
      match server.reviews(repo, change.number)
      case None => None
      case Some(remarks) => Some(Reviews(q, change, remarks, false))
  }

  function GitHubReviews(server: GitHub, q: Query, repo: string): Outcome {
    match server.reviewed(q.username, repo)
    case None => None
    case Some(changes) => Collect(changes, GitHubReviewCall(server, q, repo))
  }

  function GitHubIssueCall(server: GitHub, q: Query): string -> Outcome {
    (name: string) => Convert(Issue, server.issues(q.username, name))
  }

  function GitHubMergedCall(server: GitHub, q: Query): string -> Outcome {
    (name: string) => Convert(MergedPullRequest, server.merged(q.username, name))
  }

  function GitHubFetch(server: GitHub, q: Query, repo: string): Outcome {
    Then(if Commit in q.types then Convert(Commit, server.commits(q.username, repo)) else Some([]),
         if PullRequestReview in q.types then GitHubReviews(server, q, repo) else Some([]))
  }

  function GitHubSearchIn(server: GitHub, q: Query, issueOrder: seq<string>, mergedOrder: seq<string>): Outcome {
    Then(if Issue in q.types then Collect(issueOrder, GitHubIssueCall(server, q)) else Some([]),
         if MergedPullRequest in q.types then Collect(mergedOrder, GitHubMergedCall(server, q)) else Some([]))
  }

  /** The answers a search may give, one for each order in which the names may be walked. */
  ghost predicate GitHubSearch(server: GitHub, q: Query, names: set<string>, r: Outcome) {
    exists issueOrder, mergedOrder ::
      && r == GitHubSearchIn(server, q, issueOrder, mergedOrder)
      && multiset(issueOrder) == multiset(names) && multiset(mergedOrder) == multiset(names)
  }

  // ----- What the answers are, item by item

  predicate ReviewsFail(server: GitHub, q: Query, repo: string) {
    var found := server.reviewed(q.username, repo);
    found.None? || exists change :: change in found.value && server.reviews(repo, change.number).None?
  }

  /** For each reviewed change in order, the reviews the user wrote himself within the period. */
  ghost predicate ReviewParts(server: GitHub, q: Query, repo: string, changes: seq<Change>, parts: seq<seq<Activity>>) {
    && |parts| == |changes|
    && forall i :: 0 <= i < |changes| ==>
         var answer := server.reviews(repo, changes[i].number);
         answer.Some? && OwnReviews(q, changes[i], answer.value, false, parts[i])
  }

  ghost predicate ReviewsAre(server: GitHub, q: Query, repo: string, activities: seq<Activity>) {
    var found := server.reviewed(q.username, repo);
    found.Some? && exists parts :: activities == Flatten(parts) && ReviewParts(server, q, repo, found.value, parts)
  }

  lemma ReviewsExactly(server: GitHub, q: Query, repo: string)
    ensures GitHubReviews(server, q, repo).None? <==> ReviewsFail(server, q, repo)
    ensures GitHubReviews(server, q, repo).Some? ==> ReviewsAre(server, q, repo, GitHubReviews(server, q, repo).value)
  {
    var found, call := server.reviewed(q.username, repo), GitHubReviewCall(server, q, repo);
    if found.Some? {
      CollectFails(found.value, call);
      if Collect(found.value, call).Some? {
        var parts := CollectParts(found.value, call);
        forall i | 0 <= i < |parts|
          ensures OwnReviews(q, found.value[i], server.reviews(repo, found.value[i].number).value, false, parts[i])
        {
          ReviewsAreOwn(q, found.value[i], server.reviews(repo, found.value[i].number).value, false);
        }
        assert ReviewParts(server, q, repo, found.value, parts);
      }
    }
  }

  /** One failed call and the whole fetch of the repository fails. */
  predicate FetchFails(server: GitHub, q: Query, repo: string) {
    || (Commit in q.types && server.commits(q.username, repo).None?)
    || (PullRequestReview in q.types && ReviewsFail(server, q, repo))
  }

  ghost predicate FetchedAre(server: GitHub, q: Query, repo: string, commits: seq<Activity>, reviews: seq<Activity>) {
    && ListedIfAsked(Commit, q.types, server.commits(q.username, repo), commits)
    && (if PullRequestReview in q.types then ReviewsAre(server, q, repo, reviews) else reviews == [])
  }

  lemma FetchExactly(server: GitHub, q: Query, repo: string)
    ensures var r := GitHubFetch(server, q, repo);
            && (r.None? <==> FetchFails(server, q, repo))
            && (r.Some? ==> exists commits, reviews ::
                  r.value == commits + reviews && FetchedAre(server, q, repo, commits, reviews))
  {
    ReviewsExactly(server, q, repo);
    var r := GitHubFetch(server, q, repo);
    if r.Some? {
      var commits := if Commit in q.types then Converted(Commit, server.commits(q.username, repo).value) else [];
      var reviews := if PullRequestReview in q.types then GitHubReviews(server, q, repo).value else [];
      if Commit in q.types {
        ConvertedAsListed(Commit, server.commits(q.username, repo).value);
      }
      assert r.value == commits + reviews && FetchedAre(server, q, repo, commits, reviews);
    }
  }

  /** Everything the server lists for the name: issues, or else merged pull requests. */
  ghost predicate NamePart(server: GitHub, q: Query, issues: bool, name: string, part: seq<Activity>) {
    if issues then server.issues(q.username, name).Some? && AsListed(Issue, server.issues(q.username, name).value, part)
    else server.merged(q.username, name).Some? && AsListed(MergedPullRequest, server.merged(q.username, name).value, part)
  }

  ghost predicate NameParts(server: GitHub, q: Query, issues: bool, order: seq<string>, parts: seq<seq<Activity>>) {
    |parts| == |order| && forall i :: 0 <= i < |order| ==> NamePart(server, q, issues, order[i], parts[i])
  }

  lemma OneNamePart(server: GitHub, q: Query, issues: bool, name: string)
    ensures var r := if issues then GitHubIssueCall(server, q)(name) else GitHubMergedCall(server, q)(name);
            r.Some? ==> NamePart(server, q, issues, name, r.value)
  {
    if issues && server.issues(q.username, name).Some? {
      ConvertedAsListed(Issue, server.issues(q.username, name).value);
    }
    if !issues && server.merged(q.username, name).Some? {
      ConvertedAsListed(MergedPullRequest, server.merged(q.username, name).value);
    }
  }

  ghost predicate SearchedAre(server: GitHub, q: Query, issues: bool, order: seq<string>, activities: seq<Activity>) {
    exists parts :: activities == Flatten(parts) && NameParts(server, q, issues, order, parts)
  }

  /** One failed call and the search gives up. */
  predicate SearchFails(server: GitHub, q: Query, issues: bool, names: set<string>) {
    exists name :: name in names
                   && if issues then server.issues(q.username, name).None? else server.merged(q.username, name).None?
  }

  lemma SearchExactly(server: GitHub, q: Query, issues: bool, order: seq<string>, names: set<string>)
    requires forall name :: name in order <==> name in names
    ensures var r := Collect(order, if issues then GitHubIssueCall(server, q) else GitHubMergedCall(server, q));
            (r.None? <==> SearchFails(server, q, issues, names)) && (r.Some? ==> SearchedAre(server, q, issues, order, r.value))
  {
    var call := if issues then GitHubIssueCall(server, q) else GitHubMergedCall(server, q);
    CollectFails(order, call);
    if Collect(order, call).Some? {
      var parts := CollectParts(order, call);
      forall i | 0 <= i < |parts|
        ensures NamePart(server, q, issues, order[i], parts[i])
      {
        OneNamePart(server, q, issues, order[i]);
      }
      assert NameParts(server, q, issues, order, parts);
    }
  }

  /** The issues and then the merged pull requests of the asked types, the names walked in some order. */
  ghost predicate SearchesAre(server: GitHub, q: Query, issueOrder: seq<string>, mergedOrder: seq<string>,
                              issues: seq<Activity>, merged: seq<Activity>) {
    && (if Issue in q.types then SearchedAre(server, q, true, issueOrder, issues) else issues == [])
    && (if MergedPullRequest in q.types then SearchedAre(server, q, false, mergedOrder, merged) else merged == [])
  }

  predicate AnySearchFails(server: GitHub, q: Query, names: set<string>) {
    || (Issue in q.types && SearchFails(server, q, true, names))
    || (MergedPullRequest in q.types && SearchFails(server, q, false, names))
  }

  lemma SearchInExactly(server: GitHub, q: Query, issueOrder: seq<string>, mergedOrder: seq<string>, names: set<string>)
    requires multiset(issueOrder) == multiset(names) && multiset(mergedOrder) == multiset(names)
    ensures var r := GitHubSearchIn(server, q, issueOrder, mergedOrder);
            && (r.None? <==> AnySearchFails(server, q, names))
            && (r.Some? ==> exists issues, merged ::
                  r.value == issues + merged && SearchesAre(server, q, issueOrder, mergedOrder, issues, merged))
  {
    OrderOf(issueOrder, names);
    OrderOf(mergedOrder, names);
    SearchExactly(server, q, true, issueOrder, names);
    SearchExactly(server, q, false, mergedOrder, names);
    var r := GitHubSearchIn(server, q, issueOrder, mergedOrder);
    if r.Some? {
      var issues := if Issue in q.types then Collect(issueOrder, GitHubIssueCall(server, q)).value else [];
      var merged := if MergedPullRequest in q.types then Collect(mergedOrder, GitHubMergedCall(server, q)).value else [];
      assert r.value == issues + merged && SearchesAre(server, q, issueOrder, mergedOrder, issues, merged);
    }
  }

  lemma OrderOf(order: seq<string>, names: set<string>)
    requires multiset(order) == multiset(names)
    ensures forall name :: name in order <==> name in names
  {
    forall name
      ensures name in order <==> name in names
    {
      assert name in order <==> name in multiset(order);
    }
  }

  /** The outcome of a group's search, item by item: every name once, in some order. */
  ghost predicate SearchOutcome(server: GitHub, q: Query, names: set<string>, r: Outcome) {
    && (r.None? <==> AnySearchFails(server, q, names))
    && (r.Some? ==> exists issueOrder, mergedOrder, issues, merged ::
          && multiset(issueOrder) == multiset(names) && multiset(mergedOrder) == multiset(names)
          && r.value == issues + merged && SearchesAre(server, q, issueOrder, mergedOrder, issues, merged))
  }

  lemma SearchIsOutcome(server: GitHub, q: Query, names: set<string>, r: Outcome)
    requires GitHubSearch(server, q, names, r)
    ensures SearchOutcome(server, q, names, r)
  {
    var issueOrder, mergedOrder :|
      && r == GitHubSearchIn(server, q, issueOrder, mergedOrder)
      && multiset(issueOrder) == multiset(names) && multiset(mergedOrder) == multiset(names);
    SearchInExactly(server, q, issueOrder, mergedOrder, names);
  }

  class GitHubFetcher {
    const server: GitHub

    constructor (server: GitHub)
      ensures this.server == server
    {
      this.server := server;
    }

    method FetchForUser(q: Query, repo: Repository) returns (r: Outcome)
      ensures r == GitHubFetch(server, q, repo.fullName)
      ensures r.None? <==> FetchFails(server, q, repo.fullName)
      ensures r.Some? ==> exists commits, reviews ::
                            r.value == commits + reviews && FetchedAre(server, q, repo.fullName, commits, reviews)
    {
      FetchExactly(server, q, repo.fullName);
      var activities := [];
      if Commit in q.types {
        var answer := server.commits(q.username, repo.fullName);
        if answer.None? {
          return None;
        }
        activities := ConvertItems(Commit, answer.value);
      }
      assert activities + [] == activities;
      if PullRequestReview in q.types {
        var reviews := FetchReviews(q, repo.fullName);
        if reviews.None? {
          return None;
        }
        activities := activities + reviews.value;
      }
      return Some(activities);
    }

    method FetchReviews(q: Query, repo: string) returns (r: Outcome)
      ensures r == GitHubReviews(server, q, repo)
      ensures r.None? <==> ReviewsFail(server, q, repo)
      ensures r.Some? ==> ReviewsAre(server, q, repo, r.value)
    {
      ReviewsExactly(server, q, repo);
      var found := server.reviewed(q.username, repo);
      if found.None? {
        return None;
      }
      var activities := [];
      ghost var call := GitHubReviewCall(server, q, repo);
      assert found.value[0..] == found.value;
      PrependNothing(Collect(found.value, call));
      for i := 0 to |found.value|
        invariant Prepend(activities, Collect(found.value[i..], call)) == Collect(found.value, call)
      {
        var change := found.value[i];
        assert found.value[i..][1..] == found.value[i + 1..];
        var answer := server.reviews(repo, change.number);
        if answer.None? {
          return None;
        }
        var reviews := CollectReviews(q, change, answer.value, false);
        PrependTwice(activities, reviews, Collect(found.value[i + 1..], call));
        activities := activities + reviews;
      }
      assert activities + [] == activities;
      return Some(activities);
    }

    /** The names of a set, in whatever order the set yields them. */
    method RepoFilters(names: set<string>) returns (repoFilters: seq<string>)
      ensures multiset(repoFilters) == multiset(names)
    {
      repoFilters := [];
      var left := names;
      while left != {}
        invariant left <= names && multiset(repoFilters) == multiset(names - left)
        decreases left
      {
        var name :| name in left;
        assert names - (left - {name}) == (names - left) + {name};
        repoFilters := repoFilters + [name];
        left := left - {name};
      }
      assert names - left == names;
    }

    /** One search call per name, giving up at the first error. */
    method SearchEach(q: Query, repoFilters: seq<string>, issues: bool) returns (r: Outcome)
      ensures r == Collect(repoFilters, if issues then GitHubIssueCall(server, q) else GitHubMergedCall(server, q))
      ensures r.None? <==> SearchFails(server, q, issues, set name | name in repoFilters)
      ensures r.Some? ==> SearchedAre(server, q, issues, repoFilters, r.value)
    {
      SearchExactly(server, q, issues, repoFilters, set name | name in repoFilters);
      ghost var call := if issues then GitHubIssueCall(server, q) else GitHubMergedCall(server, q);
      var activities := [];
      assert repoFilters[0..] == repoFilters;
      PrependNothing(Collect(repoFilters, call));
      for i := 0 to |repoFilters|
        invariant Prepend(activities, Collect(repoFilters[i..], call)) == Collect(repoFilters, call)
      {
        assert repoFilters[i..][1..] == repoFilters[i + 1..];
        var name := repoFilters[i];
        var answer := if issues then server.issues(q.username, name) else server.merged(q.username, name);
        if answer.None? {
          return None;
        }
        var found := ConvertItems(if issues then Issue else MergedPullRequest, answer.value);
        PrependTwice(activities, found, Collect(repoFilters[i + 1..], call));
        activities := activities + found;
      }
      assert activities + [] == activities;
      r := Some(activities);
    }

    method SearchActivities(q: Query, repos: seq<Repository>) returns (r: Outcome)
      ensures GitHubSearch(server, q, NameSet(repos), r) && SearchOutcome(server, q, NameSet(repos), r)
    {
      var names := NameSet(repos);
      var issues, merged := Some([]), Some([]);
      ghost var issueOrder, mergedOrder := SomeOrder(names), SomeOrder(names);
      if Issue in q.types {
        var repoFilters := RepoFilters(names);
        issueOrder := repoFilters;
        issues := SearchEach(q, repoFilters, true);
        if issues.None? {
          assert GitHubSearchIn(server, q, issueOrder, mergedOrder) == None;
          SearchIsOutcome(server, q, names, None);
          return None;
        }
      }
      if MergedPullRequest in q.types {
        var repoFilters := RepoFilters(names);
        mergedOrder := repoFilters;
        merged := SearchEach(q, repoFilters, false);
      }
      r := Then(issues, merged);
      assert r == GitHubSearchIn(server, q, issueOrder, mergedOrder);
      SearchIsOutcome(server, q, names, r);
    }
  }

  ghost function SomeOrder(names: set<string>): (order: seq<string>)
    ensures multiset(order) == multiset(names)
  {
    if names == {} then []
    else
      var name :| name in names;
      assert names == (names - {name}) + {name};
      SomeOrder(names - {name}) + [name]
  }

  // ----- What one repository contributes

  function Fetch(server: GitHub, q: Query): Repository -> Outcome {
    (repo: Repository) => GitHubFetch(server, q, repo.fullName)
  }

  function IssuesOf(server: GitHub, q: Query): Repository -> Outcome {
    ByName(Asked(Issue in q.types, GitHubIssueCall(server, q)))
  }

  function MergedOf(server: GitHub, q: Query): Repository -> Outcome {
    ByName(Asked(MergedPullRequest in q.types, GitHubMergedCall(server, q)))
  }

  /** Everything of the asked types that belongs to one repository. */
  function Contribution(server: GitHub, q: Query): Repository -> Outcome {
    Both(Fetch(server, q), Both(IssuesOf(server, q), MergedOf(server, q)))
  }

  lemma SearchedOnce(repos: seq<Repository>, order: seq<string>, wanted: bool, call: string -> Outcome)
    requires DistinctNames(repos) && multiset(order) == multiset(NameSet(repos))
    requires wanted ==> Collect(order, call).Some?
    ensures multiset(Brought(if wanted then Collect(order, call) else Some([])))
         == multiset(Concat(repos, ByName(Asked(wanted, call))))
  {
    NamesOnce(repos);
    ConcatNames(repos, Asked(wanted, call));
    if wanted {
      CollectIsConcat(order, call);
      ConcatPermutation(order, Names(repos), call);
      WasAsked(Names(repos), call);
    } else {
      NotAsked(Names(repos), call);
    }
  }

  /** The two calls for a group together bring each repository's contribution once. */
  lemma GroupBrings(server: GitHub, q: Query, repos: seq<Repository>, searched: Outcome)
    requires DistinctNames(repos) && GitHubSearch(server, q, NameSet(repos), searched) && searched.Some?
    ensures multiset(Concat(repos, Fetch(server, q)) + searched.value) == multiset(Concat(repos, Contribution(server, q)))
  {
    var issueOrder, mergedOrder :|
      && searched == GitHubSearchIn(server, q, issueOrder, mergedOrder)
      && multiset(issueOrder) == multiset(NameSet(repos)) && multiset(mergedOrder) == multiset(NameSet(repos));
    SearchedOnce(repos, issueOrder, Issue in q.types, GitHubIssueCall(server, q));
    SearchedOnce(repos, mergedOrder, MergedPullRequest in q.types, GitHubMergedCall(server, q));
    ConcatBoth(repos, IssuesOf(server, q), MergedOf(server, q));
    ConcatBoth(repos, Fetch(server, q), Both(IssuesOf(server, q), MergedOf(server, q)));
  }

  // ----- One repository's contribution, item by item

  /** A failed call costs what was asked for with it, a failed fetch commits and reviews alike. */
  ghost predicate ContributionAre(server: GitHub, q: Query, repo: string, commits: seq<Activity>, reviews: seq<Activity>,
                                  issues: seq<Activity>, merged: seq<Activity>) {
    && (if FetchFails(server, q, repo) then commits == [] && reviews == [] else FetchedAre(server, q, repo, commits, reviews))
    && ListedIfAsked(Issue, q.types, server.issues(q.username, repo), issues)
    && ListedIfAsked(MergedPullRequest, q.types, server.merged(q.username, repo), merged)
  }

  ghost predicate Contributes(server: GitHub, q: Query, repo: string, activities: seq<Activity>) {
    exists commits, reviews, issues, merged ::
      activities == commits + reviews + (issues + merged) && ContributionAre(server, q, repo, commits, reviews, issues, merged)
  }

  lemma ConvertedIfAsked(kind: ActivityType, types: set<ActivityType>, answer: Option<seq<Item>>)
    ensures ListedIfAsked(kind, types, answer, Brought(if kind in types then Convert(kind, answer) else Some([])))
  {
    if answer.Some? {
      ConvertedAsListed(kind, answer.value);
    }
  }

  lemma ContributionInParts(server: GitHub, q: Query, repo: Repository)
    ensures Brought(Contribution(server, q)(repo))
         == Brought(GitHubFetch(server, q, repo.fullName))
          + (Brought(IssuesOf(server, q)(repo)) + Brought(MergedOf(server, q)(repo)))
  {
    assert Both(IssuesOf(server, q), MergedOf(server, q))(repo)
        == Some(Brought(IssuesOf(server, q)(repo)) + Brought(MergedOf(server, q)(repo)));
  }

  lemma ContributionExactly(server: GitHub, q: Query, repo: Repository)
    ensures Contributes(server, q, repo.fullName, Brought(Contribution(server, q)(repo)))
  {
    var name := repo.fullName;
    FetchExactly(server, q, name);
    ConvertedIfAsked(Issue, q.types, server.issues(q.username, name));
    ConvertedIfAsked(MergedPullRequest, q.types, server.merged(q.username, name));
    var issues, merged := Brought(IssuesOf(server, q)(repo)), Brought(MergedOf(server, q)(repo));
    ContributionInParts(server, q, repo);
    var r := GitHubFetch(server, q, name);
    if r.Some? {
      var commits, reviews :| r.value == commits + reviews && FetchedAre(server, q, name, commits, reviews);
      assert ContributionAre(server, q, name, commits, reviews, issues, merged);
    } else {
      assert ContributionAre(server, q, name, [], [], issues, merged);
      assert [] + [] + (issues + merged) == [] + (issues + merged);
    }
  }
}
