/** Scoping, grouping and fetching put together: what a report holds, stated without groups,
    tokens, goroutines, channels or chunks. */
module Reports {
  import opened Seqs
  import opened Domain
  import opened Counting
  import opened Calls
  import opened Grouping
  import opened Pipeline
  import opened EndToEnd
  import Browser
  import Gather
  import Stores
  import GH = GitHubFetchers
  import GL = GitLabFetchers

  datatype Request = Request(callerID: string, admin: bool, memberID: string, since: int, until: int, types: set<ActivityType>)

  /** Who a report is about: a plain member sees only himself. */
  method ScopeMembers(team: Stores.Team, request: Request) returns (memberIDs: seq<string>)
    ensures memberIDs == ScopedIDs(team, request)
    ensures !request.admin && request.callerID !in team.leaderIDs ==> memberIDs == [request.callerID]
    ensures request.admin || request.callerID in team.leaderIDs ==>
              memberIDs == if request.memberID == "" then team.memberIDs else [request.memberID]
  {
    var isLeaderOfThisTeam := false;
    for i := 0 to |team.leaderIDs|
      invariant !isLeaderOfThisTeam && request.callerID !in team.leaderIDs[..i]
    {
      if team.leaderIDs[i] == request.callerID {
        isLeaderOfThisTeam := true;
        break;
      }
    }
    if !request.admin && !isLeaderOfThisTeam {
      memberIDs := [request.callerID];
    } else if request.memberID != "" {
      memberIDs := [request.memberID];
    } else {
      memberIDs := team.memberIDs;
    }
  }

  function ScopedIDs(team: Stores.Team, request: Request): seq<string> {
    if !request.admin && request.callerID !in team.leaderIDs then [request.callerID]
    else if request.memberID != "" then [request.memberID]
    else team.memberIDs
  }

  /** `FindByIDs`: the rows with one of the identifiers, in the database's order. */
  function LoadedMembers(users: seq<User>, ids: seq<string>): seq<User> {
    Filter(users, (u: User) => u.id in ids)
  }

  /** The platforms with a registered fetcher, as servers. */
  datatype Forges = Forges(github: GH.GitHub, gitlab: GL.GitLab)

  const GITHUB := "GITHUB"
  const GITLAB := "GITLAB"

  predicate Registered(platform: string) {
    platform == GITHUB || platform == GITLAB
  }

  function QueryFor(member: User, platform: string, request: Request): Query {
    Query(PlatformUsername(member, platform), request.since, request.until, request.types)
  }

  /** The calls one goroutine makes for its group, and what they may answer. A search that panics has
      no answer: it ends the program. */
  ghost predicate IsScript(forges: Forges, member: User, request: Request, g: Group, script: Gather.Script) {
    var q := QueryFor(member, g.platform, request);
    var n := |g.repos|;
    && |script| == n + 1
    && (forall i :: 0 <= i < n ==> script[i] == Fetches(forges, g.platform, q)(g.repos[i]))
    && (if g.platform == GITHUB then GH.GitHubSearch(forges.github, q, NameSet(g.repos), script[n])
        else !GL.SearchPanics(forges.gitlab, q) && script[n] == GL.GitLabSearch(forges.gitlab, q, g.repos))
  }

  function Fetches(forges: Forges, platform: string, q: Query): Repository -> Gather.Outcome {
    if platform == GITHUB then GH.Fetch(forges.github, q) else GL.Fetch(forges.gitlab, q)
  }

  /** One script per group whose platform has a fetcher; the other groups are logged and skipped. */
  ghost predicate AreScripts(forges: Forges, member: User, request: Request, groups: seq<Group>, scripts: seq<Gather.Script>)
    decreases |groups|
  {
    if groups == [] then scripts == []
    else
      var g, front := groups[|groups| - 1], groups[..|groups| - 1];
      if !Registered(g.platform) then AreScripts(forges, member, request, front, scripts)
      else
        && scripts != []
        && AreScripts(forges, member, request, front, scripts[..|scripts| - 1])
        && IsScript(forges, member, request, g, scripts[|scripts| - 1])
  }

  /** No listing a GitLab group would read holds an item that makes the search panic. */
  ghost predicate NonePanics(forges: Forges, member: User, request: Request, groups: seq<Group>) {
    forall g: Group :: g in groups && g.platform == GITLAB ==> !GL.SearchPanics(forges.gitlab, QueryFor(member, GITLAB, request))
  }

  lemma SomeScript(forges: Forges, member: User, request: Request, g: Group) returns (script: Gather.Script)
    requires Registered(g.platform) && NonePanics(forges, member, request, [g])
    ensures IsScript(forges, member, request, g, script)
  {
    var q, n := QueryFor(member, g.platform, request), |g.repos|;
    var found: Gather.Outcome;
    if g.platform == GITHUB {
      var order := GH.SomeOrder(NameSet(g.repos));
      found := GH.GitHubSearchIn(forges.github, q, order, order);
    } else {
      assert g in [g];
      found := GL.GitLabSearch(forges.gitlab, q, g.repos);
    }
    script := seq(n, i requires 0 <= i < n => Fetches(forges, g.platform, q)(g.repos[i])) + [found];
  }

  lemma {:induction false} SomeScripts(forges: Forges, member: User, request: Request, groups: seq<Group>)
    returns (scripts: seq<Gather.Script>)
    requires NonePanics(forges, member, request, groups)
    ensures AreScripts(forges, member, request, groups, scripts)
    decreases |groups|
  {
    scripts := [];
    if groups != [] {
      var g, front := groups[|groups| - 1], groups[..|groups| - 1];
      scripts := SomeScripts(forges, member, request, front);
      if Registered(g.platform) {
        var script := SomeScript(forges, member, request, g);
        assert (scripts + [script])[..|scripts|] == scripts;
        scripts := scripts + [script];
      }
    }
  }

  lemma {:induction false} ScriptedWithoutPanic(forges: Forges, member: User, request: Request, groups: seq<Group>,
                                                scripts: seq<Gather.Script>)
    requires AreScripts(forges, member, request, groups, scripts)
    ensures NonePanics(forges, member, request, groups)
    decreases |groups|
  {
    if groups != [] {
      var g, front := groups[|groups| - 1], groups[..|groups| - 1];
      assert groups == front + [g];
      if Registered(g.platform) {
        ScriptedWithoutPanic(forges, member, request, front, scripts[..|scripts| - 1]);
      } else {
        ScriptedWithoutPanic(forges, member, request, front, scripts);
      }
    }
  }

  /** Whatever the servers answer, the groups have scripts if and only if no GitLab search panics. */
  lemma ScriptsExactly(forges: Forges, member: User, request: Request, groups: seq<Group>)
    ensures (exists scripts :: AreScripts(forges, member, request, groups, scripts))
       <==> NonePanics(forges, member, request, groups)
  {
    if scripts :| AreScripts(forges, member, request, groups, scripts) {
      ScriptedWithoutPanic(forges, member, request, groups, scripts);
      assert exists scripts :: AreScripts(forges, member, request, groups, scripts);
    }
    if NonePanics(forges, member, request, groups) {
      var scripts := SomeScripts(forges, member, request, groups);
      assert AreScripts(forges, member, request, groups, scripts);
    }
  }

  /** No search failed; a failed fetch only costs that repository's own fetch. */
  ghost predicate SearchesSucceed(scripts: seq<Gather.Script>) {
    forall script: Gather.Script :: script in scripts ==> script != [] && script[|script| - 1].Some?
  }

  // ----- Repository by repository

  /** What one repository contributes to a member's report, whatever its token or group. */
  function ContributionOf(forges: Forges, member: User, request: Request): Repository -> Gather.Outcome {
    (repo: Repository) =>
      var q := QueryFor(member, repo.platform, request);
      if repo.platform == GITHUB then GH.Contribution(forges.github, q)(repo)
      else if repo.platform == GITLAB then GL.Contribution(forges.gitlab, q)(repo)
      else None
  }

  /** The report without grouping: the token-bearing repositories one after the other. */
  function Ungrouped(forges: Forges, member: User, request: Request, teamRepos: seq<Repository>): seq<Activity> {
    Concat(TokenBearing(teamRepos), ContributionOf(forges, member, request))
  }

  /** The unique index on full name and platform. */
  ghost predicate Indexed(repos: seq<Repository>) {
    Distinct(repos, (r: Repository) => (r.fullName, r.platform))
  }

  lemma {:induction false} FetchedInOrder(repos: seq<Repository>, call: Repository -> Gather.Outcome, script: Gather.Script)
    requires |script| == |repos| && forall i :: 0 <= i < |repos| ==> script[i] == call(repos[i])
    ensures Flatten(Gather.Successes(script)) == Concat(repos, call)
  {
    if repos != [] {
      var last := |repos| - 1;
      FetchedInOrder(repos[..last], call, script[..last]);
      var done := Gather.Successes(script[..last]);
      assert repos == repos[..last] + [repos[last]];
      ConcatAppend(repos[..last], [repos[last]], call);
      assert Concat([repos[last]], call) == Brought(call(repos[last])) + Concat([], call);
      if script[last].Some? {
        FlattenPush(done, script[last].value);
      } else {
        assert Gather.Successes(script) == done;
      }
    }
  }

  lemma ScriptBrings(forges: Forges, member: User, request: Request, g: Group, script: Gather.Script)
    requires IsScript(forges, member, request, g, script) && script[|script| - 1].Some?
    requires Registered(g.platform) && DistinctNames(g.repos) && forall r :: r in g.repos ==> r.platform == g.platform
    ensures multiset(Flatten(Gather.Successes(script))) == multiset(Concat(g.repos, ContributionOf(forges, member, request)))
  {
    var q, n := QueryFor(member, g.platform, request), |g.repos|;
    FetchedInOrder(g.repos, Fetches(forges, g.platform, q), script[..n]);
    FlattenPush(Gather.Successes(script[..n]), script[n].value);
    if g.platform == GITHUB {
      GH.GroupBrings(forges.github, q, g.repos, script[n]);
      ConcatSame(g.repos, GH.Contribution(forges.github, q), ContributionOf(forges, member, request));
    } else {
      GL.GroupBrings(forges.gitlab, q, g.repos);
      ConcatSame(g.repos, GL.Contribution(forges.gitlab, q), ContributionOf(forges, member, request));
    }
  }

  ghost predicate GoodGroup(g: Group) {
    DistinctNames(g.repos) && forall r :: r in g.repos ==> r.platform == g.platform
  }

  lemma GroupsAreGood(teamRepos: seq<Repository>, groups: seq<Group>)
    requires IsGrouping(teamRepos, groups) && NulFree(teamRepos) && Indexed(teamRepos)
    ensures forall g :: g in groups ==> GoodGroup(g)
  {
    forall g | g in groups
      ensures GoodGroup(g)
    {
      GroupMembers(teamRepos, groups, g);
      FilterDistinct(teamRepos, HasKey(Key(g.platform, g.token)), (r: Repository) => (r.fullName, r.platform));
      assert forall i :: 0 <= i < |g.repos| ==> g.repos[i] in g.repos;
    }
  }

  lemma LastScript(scripts: seq<Gather.Script>)
    requires scripts != []
    ensures multiset(Gather.InOrder(scripts))
         == multiset(Gather.InOrder(scripts[..|scripts| - 1])) + multiset(Flatten(Gather.Successes(scripts[|scripts| - 1])))
  {
  }

  lemma LastGroup(groups: seq<Group>, call: Repository -> Gather.Outcome)
    requires groups != []
    ensures multiset(Concat(AllRepos(groups), call))
         == multiset(Concat(AllRepos(groups[..|groups| - 1]), call)) + multiset(Concat(groups[|groups| - 1].repos, call))
  {
    var g, front := groups[|groups| - 1], groups[..|groups| - 1];
    assert groups == front + [g];
    AllReposPush(front, g);
    ConcatAppend(AllRepos(front), g.repos, call);
  }

  /** The scripts bring what one call for each repository of the groups would bring. */
  ghost predicate BringAll(scripts: seq<Gather.Script>, groups: seq<Group>, call: Repository -> Gather.Outcome) {
    multiset(Gather.InOrder(scripts)) == multiset(Concat(AllRepos(groups), call))
  }

  lemma OneMoreGroup(scripts: seq<Gather.Script>, groups: seq<Group>, call: Repository -> Gather.Outcome)
    requires groups != [] && scripts != []
    requires BringAll(scripts[..|scripts| - 1], groups[..|groups| - 1], call)
    requires multiset(Flatten(Gather.Successes(scripts[|scripts| - 1]))) == multiset(Concat(groups[|groups| - 1].repos, call))
    ensures BringAll(scripts, groups, call)
  {
    LastGroup(groups, call);
    LastScript(scripts);
  }

  lemma NoMoreScripts(scripts: seq<Gather.Script>, groups: seq<Group>, call: Repository -> Gather.Outcome)
    requires groups != [] && BringAll(scripts, groups[..|groups| - 1], call)
    requires forall r :: r in groups[|groups| - 1].repos ==> Brought(call(r)) == []
    ensures BringAll(scripts, groups, call)
  {
    LastGroup(groups, call);
    ConcatNothing(groups[|groups| - 1].repos, call);
  }

  lemma {:induction false} ScriptsBring(forges: Forges, member: User, request: Request,
                                        groups: seq<Group>, scripts: seq<Gather.Script>)
    requires AreScripts(forges, member, request, groups, scripts) && SearchesSucceed(scripts)
    requires forall g :: g in groups ==> GoodGroup(g)
    ensures BringAll(scripts, groups, ContributionOf(forges, member, request))
    decreases |groups|
  {
    if groups != [] {
      var g, front := groups[|groups| - 1], groups[..|groups| - 1];
      var call := ContributionOf(forges, member, request);
      assert groups == front + [g] && g in groups;
      if Registered(g.platform) {
        ScriptsBring(forges, member, request, front, scripts[..|scripts| - 1]);
        ScriptBrings(forges, member, request, g, scripts[|scripts| - 1]);
        OneMoreGroup(scripts, groups, call);
      } else {
        ScriptsBring(forges, member, request, front, scripts);
        NoMoreScripts(scripts, groups, call);
      }
    }
  }

  lemma {:induction false} ConcatNothing(repos: seq<Repository>, call: Repository -> Gather.Outcome)
    requires forall r :: r in repos ==> Brought(call(r)) == []
    ensures Concat(repos, call) == []
  {
    if repos != [] {
      ConcatNothing(repos[1..], call);
    }
  }

  /** Grouping preserves meaning: whatever the groups and their order, the calls bring exactly what
      going through the repositories one by one would bring, nothing missed and nothing twice. */
  lemma GroupingPreserves(forges: Forges, member: User, request: Request, teamRepos: seq<Repository>,
                          groups: seq<Group>, scripts: seq<Gather.Script>)
    requires IsGrouping(teamRepos, groups) && NulFree(teamRepos) && Indexed(teamRepos)
    requires AreScripts(forges, member, request, groups, scripts) && SearchesSucceed(scripts)
    ensures multiset(Gather.InOrder(scripts)) == multiset(Ungrouped(forges, member, request, teamRepos))
  {
    GroupsAreGood(teamRepos, groups);
    ScriptsBring(forges, member, request, groups, scripts);
    GroupsPartition(teamRepos, groups);
    ConcatPermutation(AllRepos(groups), TokenBearing(teamRepos), ContributionOf(forges, member, request));
  }

  // ----- The page

  ghost predicate AreJobs(forges: Forges, members: seq<User>, request: Request, groups: seq<Group>, jobs: seq<Job>) {
    |jobs| == |members| && forall i :: 0 <= i < |jobs| ==>
      && jobs[i].user == members[i]
      && AreScripts(forges, members[i], request, groups, jobs[i].scripts)
  }

  /** From the team's stored repositories to the browser: every run of the whole pipeline ends, and
      if the client stayed, the page shows one report for each scoped member, in load order, with
      exactly the contributions of the team's token-bearing repositories. */
  lemma PageShowsEveryRepository(forges: Forges, team: Stores.Team, users: seq<User>, request: Request, teamRepos: seq<Repository>,
                                 groups: seq<Group>, jobs: seq<Job>, codec: Browser.Codec, run: nat -> State) returns (n: nat)
    requires IsGrouping(teamRepos, groups) && NulFree(teamRepos) && Indexed(teamRepos)
    requires AreJobs(forges, LoadedMembers(users, ScopedIDs(team, request)), request, groups, jobs)
    requires forall i :: 0 <= i < |jobs| ==> SearchesSucceed(jobs[i].scripts)
    requires Browser.Faithful(codec) && Run(Accepted(jobs), codec, run)
    ensures Terminal(run(n))
    ensures run(n).link.connected ==>
              var shown, members := run(n).link.view.allReports, LoadedMembers(users, ScopedIDs(team, request));
              && |shown| == |members|
              && forall i :: 0 <= i < |shown| ==>
                   && shown[i].user == members[i]
                   && multiset(shown[i].activities) == multiset(Ungrouped(forges, members[i], request, teamRepos))
                   && IsCountsOf(shown[i].counts, shown[i].activities)
  {
    n := EveryReportArrives(Accepted(jobs), codec, run);
    if run(n).link.connected {
      var shown, members := run(n).link.view.allReports, LoadedMembers(users, ScopedIDs(team, request));
      forall i | 0 <= i < |shown|
        ensures multiset(shown[i].activities) == multiset(Ungrouped(forges, members[i], request, teamRepos))
      {
        GroupingPreserves(forges, members[i], request, teamRepos, groups, jobs[i].scripts);
        assert ReportFor(jobs[i], shown[i]);
      }
    }
  }

  /** At no moment does a caller who neither administers nor leads the team see a report about
      anyone else. */
  lemma OwnReportOnly(forges: Forges, team: Stores.Team, users: seq<User>, request: Request, groups: seq<Group>, jobs: seq<Job>,
                      codec: Browser.Codec, run: nat -> State, i: nat, report: UserReport)
    requires !request.admin && request.callerID !in team.leaderIDs
    requires AreJobs(forges, LoadedMembers(users, ScopedIDs(team, request)), request, groups, jobs)
    requires Browser.Faithful(codec) && Run(Accepted(jobs), codec, run)
    requires report in run(i).link.view.allReports
    ensures report.user.id == request.callerID
  {
    var shown := run(i).link.view.allReports;
    ReportsAlwaysRight(jobs, codec, run, i);
    var k :| 0 <= k < |shown| && shown[k] == report;
    assert ReportFor(jobs[k], shown[k]);
    OwnMembersOnly(users, team, request, k);
  }

  lemma OwnMembersOnly(users: seq<User>, team: Stores.Team, request: Request, k: nat)
    requires !request.admin && request.callerID !in team.leaderIDs
    requires k < |LoadedMembers(users, ScopedIDs(team, request))|
    ensures LoadedMembers(users, ScopedIDs(team, request))[k].id == request.callerID
  {
    FilterMembers(users, (u: User) => u.id in ScopedIDs(team, request));
    assert LoadedMembers(users, ScopedIDs(team, request))[k] in LoadedMembers(users, ScopedIDs(team, request));
  }

  /** At no moment does a caller who administers or leads and has chosen a member see a report about
      anyone else. */
  lemma ChosenMemberOnly(forges: Forges, team: Stores.Team, users: seq<User>, request: Request, groups: seq<Group>,
                         jobs: seq<Job>, codec: Browser.Codec, run: nat -> State, i: nat, report: UserReport)
    requires (request.admin || request.callerID in team.leaderIDs) && request.memberID != ""
    requires AreJobs(forges, LoadedMembers(users, ScopedIDs(team, request)), request, groups, jobs)
    requires Browser.Faithful(codec) && Run(Accepted(jobs), codec, run)
    requires report in run(i).link.view.allReports
    ensures report.user.id == request.memberID
  {
    var shown, members := run(i).link.view.allReports, LoadedMembers(users, ScopedIDs(team, request));
    ReportsAlwaysRight(jobs, codec, run, i);
    var k :| 0 <= k < |shown| && shown[k] == report;
    assert ReportFor(jobs[k], shown[k]);
    FilterMembers(users, (u: User) => u.id in ScopedIDs(team, request));
    assert members[k] in members;
  }

  ghost predicate About(reports: seq<UserReport>, u: User) {
    exists r :: r in reports && r.user == u
  }

  ghost predicate DistinctUsers(users: seq<User>) {
    Distinct(users, (u: User) => u.id)
  }

  lemma LoadedOnce(users: seq<User>, ids: seq<string>)
    ensures forall u :: u in LoadedMembers(users, ids) <==> u in users && u.id in ids
    ensures DistinctUsers(users) ==> DistinctUsers(LoadedMembers(users, ids))
  {
    FilterMembers(users, (u: User) => u.id in ids);
    if DistinctUsers(users) {
      FilterDistinct(users, (u: User) => u.id in ids, (u: User) => u.id);
    }
  }

  lemma ShownAreLoaded(members: seq<User>, jobs: seq<Job>, shown: seq<UserReport>)
    requires |jobs| == |members| == |shown| && ReportsFor(jobs, shown)
    requires forall i :: 0 <= i < |jobs| ==> jobs[i].user == members[i]
    ensures forall u :: About(shown, u) <==> u in members
    ensures DistinctUsers(members) ==> forall i, j :: 0 <= i < j < |shown| ==> shown[i].user.id != shown[j].user.id
  {
    assert forall i :: 0 <= i < |shown| ==> ReportFor(jobs[i], shown[i]) && shown[i].user == members[i];
    forall u
      ensures About(shown, u) <==> u in members
    {
      if u in members {
        var i :| 0 <= i < |members| && members[i] == u;
        assert shown[i] in shown && shown[i].user == u;
      }
    }
  }

  /** The reports are about exactly the stored users in the scope, each of them once: the caller alone,
      or the member a leader or administrator has chosen, or else the whole team. */
  ghost predicate AboutScope(team: Stores.Team, users: seq<User>, request: Request, shown: seq<UserReport>) {
    var leads := request.admin || request.callerID in team.leaderIDs;
    && (!leads ==> forall u :: About(shown, u) <==> u in users && u.id == request.callerID)
    && (leads && request.memberID != "" ==> forall u :: About(shown, u) <==> u in users && u.id == request.memberID)
    && (leads && request.memberID == "" ==> forall u :: About(shown, u) <==> u in users && u.id in team.memberIDs)
    && (DistinctUsers(users) ==> forall i, j :: 0 <= i < j < |shown| ==> shown[i].user.id != shown[j].user.id)
  }

  lemma ShownInScope(team: Stores.Team, users: seq<User>, request: Request, jobs: seq<Job>, shown: seq<UserReport>)
    requires |jobs| == |LoadedMembers(users, ScopedIDs(team, request))| == |shown| && ReportsFor(jobs, shown)
    requires forall i :: 0 <= i < |jobs| ==> jobs[i].user == LoadedMembers(users, ScopedIDs(team, request))[i]
    ensures AboutScope(team, users, request, shown)
  {
    LoadedOnce(users, ScopedIDs(team, request));
    ShownAreLoaded(LoadedMembers(users, ScopedIDs(team, request)), jobs, shown);
  }

  lemma ScopeExactly(forges: Forges, team: Stores.Team, users: seq<User>, request: Request, groups: seq<Group>, jobs: seq<Job>,
                     codec: Browser.Codec, run: nat -> State) returns (n: nat)
    requires AreJobs(forges, LoadedMembers(users, ScopedIDs(team, request)), request, groups, jobs)
    requires Browser.Faithful(codec) && Run(Accepted(jobs), codec, run)
    ensures Terminal(run(n)) && (run(n).link.connected ==> AboutScope(team, users, request, run(n).link.view.allReports))
  {
    n := EveryReportArrives(Accepted(jobs), codec, run);
    if run(n).link.connected {
      ShownInScope(team, users, request, jobs, run(n).link.view.allReports);
    }
  }
}
