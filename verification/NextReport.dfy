/** What a report leaves for the next one: the repositories it discovered have lost their tokens, and
    the next report does without them. */
module NextReport {
  import opened Backup
  import opened Counting
  import opened Domain
  import opened Grouping
  import opened Pipeline
  import opened Reports
  import opened RepositoryStore
  import opened Seqs
  import opened Utf8
  import Browser
  import EndToEnd
  import Stores

  function AsText(token: seq<Byte>): (s: string)
    ensures s == "" <==> token == []
  {
    seq(|token|, i requires 0 <= i < |token| => token[i] as char)
  }

  function AsRepository(id: string, row: RepoRow): Repository {
    Repository(id, row.name, row.fullName, row.url, row.platform, AsText(row.token))
  }

  /** The rows with these identifiers, in the order given. */
  function Load(repos: map<string, RepoRow>, ids: seq<string>): seq<Repository> {
    if ids == [] then []
    else
      var last := ids[|ids| - 1];
      Load(repos, ids[..|ids| - 1]) + if last in repos then [AsRepository(last, repos[last])] else []
  }

  /** The identifiers of the repositories that a discovery did not find. */
  ghost function Unfound(repos: map<string, RepoRow>, found: seq<Row<RepoRow>>, ids: seq<string>): seq<string> {
    if ids == [] then []
    else
      var last := ids[|ids| - 1];
      Unfound(repos, found, ids[..|ids| - 1]) + if last in repos && !Finds(found, repos[last]) then [last] else []
  }

  lemma LoadPush(repos: map<string, RepoRow>, ids: seq<string>, id: string)
    ensures Load(repos, ids + [id]) == Load(repos, ids) + if id in repos then [AsRepository(id, repos[id])] else []
  {
    assert (ids + [id])[..|ids|] == ids;
  }

  lemma {:induction false} LoadedFrom(repos: map<string, RepoRow>, ids: seq<string>, r: Repository)
    requires r in Load(repos, ids)
    ensures r.id in ids && r.id in repos && r == AsRepository(r.id, repos[r.id])
  {
    var front := ids[..|ids| - 1];
    if r in Load(repos, front) {
      LoadedFrom(repos, front, r);
    }
  }

  /** What is loaded are the rows with these identifiers, value by value. */
  lemma {:induction false} LoadedExactly(repos: map<string, RepoRow>, ids: seq<string>, id: string)
    ensures (exists r :: r in Load(repos, ids) && r.id == id) <==> id in ids && id in repos
    ensures forall r :: r in Load(repos, ids) && r.id == id ==>
              && id in repos && r.name == repos[id].name && r.fullName == repos[id].fullName && r.url == repos[id].url
              && r.platform == repos[id].platform && |r.apiToken| == |repos[id].token|
              && forall k :: 0 <= k < |r.apiToken| ==> r.apiToken[k] as int == repos[id].token[k]
  {
    forall r | r in Load(repos, ids) && r.id == id
      ensures id in ids && id in repos && r == AsRepository(id, repos[id])
    {
      LoadedFrom(repos, ids, r);
    }
    if id in ids && id in repos {
      IsLoaded(repos, ids, id);
    }
  }

  lemma {:induction false} IsLoaded(repos: map<string, RepoRow>, ids: seq<string>, id: string)
    requires id in ids && id in repos
    ensures AsRepository(id, repos[id]) in Load(repos, ids)
  {
    if id in ids[..|ids| - 1] {
      IsLoaded(repos, ids[..|ids| - 1], id);
    }
  }

  /** What is loaded is unique by name and platform, as the stored rows are. */
  lemma {:induction false} LoadIndexed(repos: map<string, RepoRow>, ids: seq<string>)
    requires UniqueRepos(repos) && NoRepeats(ids)
    ensures Indexed(Load(repos, ids))
  {
    if ids != [] {
      var front, last := ids[..|ids| - 1], ids[|ids| - 1];
      LoadIndexed(repos, front);
      var before := Load(repos, front);
      forall i | 0 <= i < |before| && last in repos
        ensures (before[i].fullName, before[i].platform) != (repos[last].fullName, repos[last].platform)
      {
        LoadedFrom(repos, front, before[i]);
        assert before[i].id != last;
        assert !SameRepo(repos[before[i].id], repos[last]);
      }
    }
  }

  /** After a discovery the token-bearing repositories are those that bore one before and were not found. */
  lemma {:induction false} BearersAfter(repos: map<string, RepoRow>, found: seq<Row<RepoRow>>, ids: seq<string>)
    requires Tokenless(found) && forall id :: id in ids ==> id in repos
    ensures TokenBearing(Load(Discovered(repos, found), ids)) == TokenBearing(Load(repos, Unfound(repos, found, ids)))
  {
    if ids != [] {
      var front, last := ids[..|ids| - 1], ids[|ids| - 1];
      var after := Discovered(repos, found);
      BearersAfter(repos, found, front);
      TokenAfter(repos, found, last);
      FilterPush(Load(after, front), AsRepository(last, after[last]), BearsToken());
      LoadPush(repos, Unfound(repos, found, front), last);
      FilterPush(Load(repos, Unfound(repos, found, front)), AsRepository(last, repos[last]), BearsToken());
      assert Unfound(repos, found, front) + [] == Unfound(repos, found, front);
      assert TokenBearing(Load(after, front)) + [] == TokenBearing(Load(after, front));
    }
  }

  /** The page of the next report shows, for every member, the contributions of the repositories that
      this report did not discover, and nothing of the others. */
  lemma NextPageLacksDiscovered(forges: Forges, team: Stores.Team, users: seq<User>, request: Request, repos: map<string, RepoRow>,
                                found: seq<Row<RepoRow>>, ids: seq<string>, groups: seq<Group>, jobs: seq<Job>,
                                codec: Browser.Codec, run: nat -> State) returns (n: nat)
    requires UniqueRepos(repos) && Tokenless(found) && NoRepeats(ids) && forall id :: id in ids ==> id in repos
    requires IsGrouping(Load(Discovered(repos, found), ids), groups) && NulFree(Load(Discovered(repos, found), ids))
    requires AreJobs(forges, LoadedMembers(users, ScopedIDs(team, request)), request, groups, jobs)
    requires forall i :: 0 <= i < |jobs| ==> SearchesSucceed(jobs[i].scripts)
    requires Browser.Faithful(codec) && EndToEnd.Run(Accepted(jobs), codec, run)
    ensures Terminal(run(n))
    ensures run(n).link.connected ==>
              var shown, members := run(n).link.view.allReports, LoadedMembers(users, ScopedIDs(team, request));
              && |shown| == |members|
              && forall i :: 0 <= i < |shown| ==>
                   && shown[i].user == members[i]
                   && multiset(shown[i].activities)
                   == multiset(Ungrouped(forges, members[i], request, Load(repos, Unfound(repos, found, ids))))
  {
    DiscoveryKeeps(repos, found);
    LoadIndexed(Discovered(repos, found), ids);
    n := PageShowsEveryRepository(forges, team, users, request, Load(Discovered(repos, found), ids), groups, jobs, codec, run);
    BearersAfter(repos, found, ids);
  }
}
