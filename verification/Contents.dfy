/** What the report page shows, item by item: the lists of the servers on one side, the page on the
    other, and nothing in between. */
module Contents {
  import opened Seqs
  import opened Domain
  import opened Calls
  import opened Grouping
  import opened Pipeline
  import opened EndToEnd
  import opened Reports
  import ProjectPath
  import Browser
  import Gather
  import Stores
  import GH = GitHubFetchers
  import GL = GitLabFetchers

  /** A member is looked up by the name he has on the platform, or else by his own. */
  function NameOn(member: User, platform: string): string {
    if platform in member.platformUsernames then member.platformUsernames[platform] else member.username
  }

  // ----- What one repository brings

  ghost predicate RepoBrings(forges: Forges, member: User, request: Request, repo: Repository, activities: seq<Activity>) {
    var q := Query(NameOn(member, repo.platform), request.since, request.until, request.types);
    if repo.platform == GITHUB then GH.Contributes(forges.github, q, repo.fullName, activities)
    else if repo.platform == GITLAB then GL.Contributes(forges.gitlab, q, repo.fullName, activities)
    else activities == []
  }

  lemma RepoBringsExactly(forges: Forges, member: User, request: Request, repo: Repository)
    ensures RepoBrings(forges, member, request, repo, Brought(ContributionOf(forges, member, request)(repo)))
  {
    var q := QueryFor(member, repo.platform, request);
    if repo.platform == GITHUB {
      GH.ContributionExactly(forges.github, q, repo);
    } else if repo.platform == GITLAB {
      GL.ContributionExactly(forges.gitlab, q, repo);
    }
  }

  // ----- What the whole page shows

  ghost predicate RepoParts(forges: Forges, member: User, request: Request, repos: seq<Repository>,
                            parts: seq<seq<Activity>>) {
    |parts| == |repos| && forall j :: 0 <= j < |repos| ==> RepoBrings(forges, member, request, repos[j], parts[j])
  }

  /** Repository by repository, in some order, what the servers list. */
  ghost predicate ShowsRepos(forges: Forges, member: User, request: Request, repos: seq<Repository>, activities: seq<Activity>) {
    exists parts :: multiset(activities) == multiset(Flatten(parts)) && RepoParts(forges, member, request, repos, parts)
  }

  lemma {:induction false} ConcatParts(forges: Forges, member: User, request: Request, repos: seq<Repository>)
    returns (parts: seq<seq<Activity>>)
    ensures RepoParts(forges, member, request, repos, parts)
    ensures Flatten(parts) == Concat(repos, ContributionOf(forges, member, request))
  {
    if repos == [] {
      parts := [];
    } else {
      var rest := ConcatParts(forges, member, request, repos[1..]);
      RepoBringsExactly(forges, member, request, repos[0]);
      parts := [Brought(ContributionOf(forges, member, request)(repos[0]))] + rest;
      assert parts[1..] == rest;
    }
  }

  /** When no search fails: the finished page shows for each member exactly what the servers list, by
      the member's name on each platform, for the types asked for, in the team's token-bearing
      repositories, each listed item once; of reviews, those the member wrote within the period. */
  lemma PageShowsWhatIsListed(forges: Forges, team: Stores.Team, users: seq<User>, request: Request, teamRepos: seq<Repository>,
                              groups: seq<Group>, jobs: seq<Job>, codec: Browser.Codec, run: nat -> State) returns (n: nat)
    requires IsGrouping(teamRepos, groups) && NulFree(teamRepos) && Indexed(teamRepos)
    requires AreJobs(forges, LoadedMembers(users, ScopedIDs(team, request)), request, groups, jobs)
    requires forall i :: 0 <= i < |jobs| ==> SearchesSucceed(jobs[i].scripts)
    requires Browser.Faithful(codec) && Run(Accepted(jobs), codec, run)
    ensures Terminal(run(n))
    ensures run(n).link.connected ==>
              forall report :: report in run(n).link.view.allReports ==>
                ShowsRepos(forges, report.user, request, TokenBearing(teamRepos), report.activities)
  {
    n := PageShowsEveryRepository(forges, team, users, request, teamRepos, groups, jobs, codec, run);
    if run(n).link.connected {
      forall report | report in run(n).link.view.allReports
        ensures ShowsRepos(forges, report.user, request, TokenBearing(teamRepos), report.activities)
      {
        var parts := ConcatParts(forges, report.user, request, TokenBearing(teamRepos));
      }
    }
  }

  // ----- Nothing else is ever shown

  ghost predicate FromItem(a: Activity, answer: Option<seq<Item>>) {
    answer.Some? && exists item :: item in answer.value
                                   && a == Activity(a.kind, item.title, item.url, item.createdAt, item.summary)
  }

  /** The item's web URL is one of the project's. */
  ghost predicate FromItemOf(a: Activity, answer: Option<seq<seq<Item>>>, repo: string) {
    answer.Some? && exists item :: item in Flatten(answer.value) && ProjectPath.Project(item.web) == Some(repo)
                                   && a == Activity(a.kind, item.title, item.url, item.createdAt, item.summary)
  }

  ghost predicate GitHubReview(forges: Forges, name: string, request: Request, repo: string, a: Activity,
                               change: Change, r: Remark) {
    var found, answer := forges.github.reviewed(name, repo), forges.github.reviews(repo, change.number);
    && found.Some? && change in found.value && answer.Some? && r in answer.value
    && r.author == name && request.since <= r.at <= request.until
    && a == Activity(PullRequestReview, change.title, r.url, r.at, change.title)
  }

  ghost predicate GitLabNote(forges: Forges, name: string, request: Request, repo: string, a: Activity,
                             change: Change, r: Remark) {
    var found, answer := forges.gitlab.changes(repo), forges.gitlab.notes(repo, change.number);
    && found.Some? && change in found.value && answer.Some? && r in answer.value
    && r.author == name && request.since <= r.at <= request.until && !r.system
    && a == Activity(PullRequestReview, change.title, change.url, r.at, change.title)
  }

  /** A server lists this activity for the member in the repository. */
  ghost predicate Listed(forges: Forges, member: User, request: Request, repo: Repository, a: Activity) {
    var name, full := NameOn(member, repo.platform), repo.fullName;
    && a.kind in request.types
    && if repo.platform == GITHUB then
         match a.kind
         case Commit => FromItem(a, forges.github.commits(name, full))
         case Issue => FromItem(a, forges.github.issues(name, full))
         case MergedPullRequest => FromItem(a, forges.github.merged(name, full))
         case PullRequestReview => exists change, r :: GitHubReview(forges, name, request, full, a, change, r)
         case Other(_) => false
       else if repo.platform == GITLAB then
         match a.kind
         case Commit => FromItem(a, forges.gitlab.commits(name, full))
         case Issue => FromItemOf(a, forges.gitlab.issues(name), full)
         case MergedPullRequest => FromItemOf(a, forges.gitlab.merged(name), full)
         case PullRequestReview => exists change, r :: GitLabNote(forges, name, request, full, a, change, r)
         case Other(_) => false
       else false
  }

  lemma {:induction false} InFlatten<T>(parts: seq<seq<T>>, x: T) returns (i: nat)
    requires x in Flatten(parts)
    ensures i < |parts| && x in parts[i]
  {
    if x in parts[0] {
      i := 0;
    } else {
      i := InFlatten(parts[1..], x);
      i := i + 1;
    }
  }

  lemma FromListing(kind: ActivityType, types: set<ActivityType>, answer: Option<seq<Item>>,
                    activities: seq<Activity>, a: Activity)
    requires ListedIfAsked(kind, types, answer, activities) && a in activities
    ensures a.kind == kind && kind in types && FromItem(a, answer)
  {
    var k :| 0 <= k < |activities| && activities[k] == a;
    assert answer.value[k] in answer.value;
  }

  lemma FromNamed(kind: ActivityType, types: set<ActivityType>, answer: Option<seq<seq<Item>>>, repo: string,
                  activities: seq<Activity>, a: Activity)
    requires GL.NamedIfAsked(kind, types, answer, {repo}, activities) && a in activities
    ensures a.kind == kind && kind in types && FromItemOf(a, answer, repo)
  {
    var item := GL.NamedItem(kind, Flatten(answer.value), {repo}, activities, a);
  }

  lemma FromReviews(q: Query, change: Change, remarks: seq<Remark>, notes: bool, activities: seq<Activity>, a: Activity)
    returns (r: Remark)
    requires OwnReviews(q, change, remarks, notes, activities) && a in activities
    ensures r in remarks && r.author == q.username && q.since <= r.at <= q.until && (notes ==> !r.system)
    ensures a == Activity(PullRequestReview, change.title, if notes then change.url else r.url, r.at, change.title)
  {
    var places :| OwnReviewsAt(q, change, remarks, notes, activities, places);
    var k :| 0 <= k < |activities| && activities[k] == a;
    assert places[k] in places;
    r := remarks[places[k]];
  }

  lemma FromGitHub(forges: Forges, member: User, request: Request, repo: Repository, activities: seq<Activity>, a: Activity)
    requires repo.platform == GITHUB && RepoBrings(forges, member, request, repo, activities) && a in activities
    ensures Listed(forges, member, request, repo, a)
  {
    var name, full, server := NameOn(member, repo.platform), repo.fullName, forges.github;
    var q := Query(name, request.since, request.until, request.types);
    var commits, reviews, issues, merged :|
      && activities == commits + reviews + (issues + merged)
      && GH.ContributionAre(server, q, full, commits, reviews, issues, merged);
    if a in commits {
      FromListing(Commit, q.types, server.commits(name, full), commits, a);
    } else if a in issues {
      FromListing(Issue, q.types, server.issues(name, full), issues, a);
    } else if a in merged {
      FromListing(MergedPullRequest, q.types, server.merged(name, full), merged, a);
    } else {
      var found := server.reviewed(name, full);
      var parts :| reviews == Flatten(parts) && GH.ReviewParts(server, q, full, found.value, parts);
      var i := InFlatten(parts, a);
      var r := FromReviews(q, found.value[i], server.reviews(full, found.value[i].number).value, false, parts[i], a);
      assert GitHubReview(forges, name, request, full, a, found.value[i], r);
    }
  }

  lemma FromGitLab(forges: Forges, member: User, request: Request, repo: Repository, activities: seq<Activity>, a: Activity)
    requires repo.platform == GITLAB && RepoBrings(forges, member, request, repo, activities) && a in activities
    ensures Listed(forges, member, request, repo, a)
  {
    var name, full, server := NameOn(member, repo.platform), repo.fullName, forges.gitlab;
    var q := Query(name, request.since, request.until, request.types);
    var commits, issues, merged, notes :|
      && activities == commits + (issues + (merged + notes))
      && GL.ContributionAre(server, q, full, commits, issues, merged, notes);
    if a in commits {
      FromListing(Commit, q.types, server.commits(name, full), commits, a);
    } else if a in issues {
      FromNamed(Issue, q.types, server.issues(name), full, issues, a);
    } else if a in merged {
      FromNamed(MergedPullRequest, q.types, server.merged(name), full, merged, a);
    } else {
      var found := server.changes(full);
      var parts :| notes == Flatten(parts) && GL.NoteParts(server, q, full, found.value, parts);
      var i := InFlatten(parts, a);
      var r := FromReviews(q, found.value[i], server.notes(full, found.value[i].number).value, true, parts[i], a);
      assert GitLabNote(forges, name, request, full, a, found.value[i], r);
    }
  }

  lemma BroughtIsListed(forges: Forges, member: User, request: Request, repo: Repository, a: Activity)
    requires a in Brought(ContributionOf(forges, member, request)(repo))
    ensures Listed(forges, member, request, repo, a)
  {
    RepoBringsExactly(forges, member, request, repo);
    if repo.platform == GITHUB {
      FromGitHub(forges, member, request, repo, Brought(ContributionOf(forges, member, request)(repo)), a);
    } else {
      FromGitLab(forges, member, request, repo, Brought(ContributionOf(forges, member, request)(repo)), a);
    }
  }

  lemma {:induction false} InConcat(repos: seq<Repository>, call: Repository -> Gather.Outcome, a: Activity)
    returns (repo: Repository)
    requires a in Concat(repos, call)
    ensures repo in repos && a in Brought(call(repo))
  {
    if a in Brought(call(repos[0])) {
      repo := repos[0];
    } else {
      repo := InConcat(repos[1..], call, a);
    }
  }

  /** A fetch alone, when the search that follows it fails, brings part of the contribution. */
  lemma FetchWithin(forges: Forges, member: User, request: Request, platform: string, repo: Repository, a: Activity)
    requires Registered(platform) && repo.platform == platform
    requires a in Brought(Fetches(forges, platform, QueryFor(member, platform, request))(repo))
    ensures a in Brought(ContributionOf(forges, member, request)(repo))
  {
    var q := QueryFor(member, platform, request);
    if platform == GITHUB {
      GH.ContributionInParts(forges.github, q, repo);
    } else {
      GL.ContributionInParts(forges.gitlab, q, repo);
    }
  }

  /** Whatever one goroutine stores, even when its search fails, comes from a repository of its group. */
  lemma ScriptWithin(forges: Forges, member: User, request: Request, g: Group, script: Gather.Script, a: Activity)
    returns (repo: Repository)
    requires IsScript(forges, member, request, g, script) && Registered(g.platform) && GoodGroup(g)
    requires a in Flatten(Gather.Successes(script))
    ensures repo in g.repos && a in Brought(ContributionOf(forges, member, request)(repo))
  {
    var n := |g.repos|;
    if script[n].Some? {
      ScriptBrings(forges, member, request, g, script);
      assert a in multiset(Flatten(Gather.Successes(script)));
      repo := InConcat(g.repos, ContributionOf(forges, member, request), a);
    } else {
      var q := QueryFor(member, g.platform, request);
      FetchedInOrder(g.repos, Fetches(forges, g.platform, q), script[..n]);
      assert Gather.Successes(script) == Gather.Successes(script[..n]);
      repo := InConcat(g.repos, Fetches(forges, g.platform, q), a);
      FetchWithin(forges, member, request, g.platform, repo, a);
    }
  }

  lemma {:induction false} ScriptsWithin(forges: Forges, member: User, request: Request, groups: seq<Group>,
                                         scripts: seq<Gather.Script>, a: Activity)
    returns (g: Group, repo: Repository)
    requires AreScripts(forges, member, request, groups, scripts) && forall g :: g in groups ==> GoodGroup(g)
    requires a in Gather.InOrder(scripts)
    ensures g in groups && repo in g.repos && a in Brought(ContributionOf(forges, member, request)(repo))
    decreases |groups|
  {
    var last, front := groups[|groups| - 1], groups[..|groups| - 1];
    assert last in groups;
    if !Registered(last.platform) {
      g, repo := ScriptsWithin(forges, member, request, front, scripts, a);
    } else if a in Gather.InOrder(scripts[..|scripts| - 1]) {
      g, repo := ScriptsWithin(forges, member, request, front, scripts[..|scripts| - 1], a);
    } else {
      g := last;
      repo := ScriptWithin(forges, member, request, last, scripts[|scripts| - 1], a);
    }
  }

  ghost predicate ListedSomewhere(forges: Forges, member: User, request: Request, teamRepos: seq<Repository>, a: Activity) {
    exists repo :: repo in teamRepos && repo.apiToken != "" && Listed(forges, member, request, repo, a)
  }

  /** At no moment, whatever fails and whether or not the client stays, does a report show an activity
      that no server lists for that very member, of a type asked for, in a token-bearing repository of
      the team. */
  lemma ShownIsListed(forges: Forges, users: seq<User>, team: Stores.Team, request: Request, teamRepos: seq<Repository>,
                      groups: seq<Group>, jobs: seq<Job>, codec: Browser.Codec, run: nat -> State, i: nat,
                      report: UserReport, a: Activity)
    requires IsGrouping(teamRepos, groups) && NulFree(teamRepos) && Indexed(teamRepos)
    requires AreJobs(forges, LoadedMembers(users, ScopedIDs(team, request)), request, groups, jobs)
    requires Browser.Faithful(codec) && Run(Accepted(jobs), codec, run)
    requires report in run(i).link.view.allReports && a in report.activities
    ensures ListedSomewhere(forges, report.user, request, teamRepos, a)
  {
    var shown := run(i).link.view.allReports;
    ReportsAlwaysRight(jobs, codec, run, i);
    var k :| 0 <= k < |shown| && shown[k] == report;
    assert ReportFor(jobs[k], shown[k]);
    assert a in multiset(report.activities);
    GroupsAreGood(teamRepos, groups);
    var g, repo := ScriptsWithin(forges, report.user, request, groups, jobs[k].scripts, a);
    GroupMembers(teamRepos, groups, g);
    BroughtIsListed(forges, report.user, request, repo, a);
  }

  /** Who wrote the remark, on which of the team's repositories, when. */
  ghost predicate WroteRemark(forges: Forges, member: User, request: Request, repo: Repository, r: Remark) {
    && r.author == NameOn(member, repo.platform) && request.since <= r.at <= request.until
    && exists number ::
         || (&& repo.platform == GITHUB && forges.github.reviews(repo.fullName, number).Some?
             && r in forges.github.reviews(repo.fullName, number).value)
         || (&& repo.platform == GITLAB && forges.gitlab.notes(repo.fullName, number).Some?
             && r in forges.gitlab.notes(repo.fullName, number).value && !r.system)
  }

  lemma ListedReview(forges: Forges, member: User, request: Request, repo: Repository, a: Activity) returns (r: Remark)
    requires Listed(forges, member, request, repo, a) && a.kind.PullRequestReview?
    ensures WroteRemark(forges, member, request, repo, r) && a.createdAt == r.at
  {
    var name := NameOn(member, repo.platform);
    if repo.platform == GITHUB {
      var change, r' :| GitHubReview(forges, name, request, repo.fullName, a, change, r');
      r := r';
    } else {
      var change, r' :| GitLabNote(forges, name, request, repo.fullName, a, change, r');
      r := r';
    }
  }

  /** No review is ever shown for a member that someone else wrote, or that was written outside the
      period. */
  lemma NoForeignReview(forges: Forges, users: seq<User>, team: Stores.Team, request: Request, teamRepos: seq<Repository>,
                        groups: seq<Group>, jobs: seq<Job>, codec: Browser.Codec, run: nat -> State, i: nat,
                        report: UserReport, a: Activity)
    requires IsGrouping(teamRepos, groups) && NulFree(teamRepos) && Indexed(teamRepos)
    requires AreJobs(forges, LoadedMembers(users, ScopedIDs(team, request)), request, groups, jobs)
    requires Browser.Faithful(codec) && Run(Accepted(jobs), codec, run)
    requires report in run(i).link.view.allReports && a in report.activities && a.kind == PullRequestReview
    ensures exists repo, r :: repo in teamRepos && WroteRemark(forges, report.user, request, repo, r) && a.createdAt == r.at
  {
    ShownIsListed(forges, users, team, request, teamRepos, groups, jobs, codec, run, i, report, a);
    var repo :| repo in teamRepos && repo.apiToken != "" && Listed(forges, report.user, request, repo, a);
    var r := ListedReview(forges, report.user, request, repo, a);
  }
}
