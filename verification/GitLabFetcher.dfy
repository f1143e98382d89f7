/** The GitLab fetcher: commits per repository, then one listing of the user's issues and one of
    their merge requests, kept where the web URL names a repository of the group, and the notes on
    each repository's merge requests. */
module GitLabFetchers {
  import opened Seqs
  import opened Domain
  import opened ProjectPath
  import opened Gather
  import opened Calls

  datatype GitLab = GitLab(
    commits: (string, string) -> Option<seq<Item>>,     // username, repository
    issues: string -> Option<seq<seq<Item>>>,           // username; a list per page
    merged: string -> Option<seq<seq<Item>>>,           // username; a list per page
    changes: string -> Option<seq<Change>>,             // repository
    notes: (string, nat) -> Option<seq<Remark>>)        // repository, number

  function Where(kind: ActivityType, items: seq<Item>, keep: Item -> bool): seq<Activity> {
    if items == [] then []
    else (if keep(items[0]) then [ToActivity(kind, items[0])] else []) + Where(kind, items[1..], keep)
  }

  function Belongs(names: set<string>): Item -> bool {
    (item: Item) => Project(item.web).Some? && Project(item.web).value in names
  }

  /** The filter loop panics on an item whose web URL has no path, and the program ends. */
  predicate Panics(items: seq<Item>) {
    exists item :: item in items && Project(item.web).None?
  }

  /** The items of the named projects, in the server's order. */
  function Kept(kind: ActivityType, items: seq<Item>, names: set<string>): seq<Activity> {
    Where(kind, items, Belongs(names))
  }

  /** The item's web URL is built on the project that owns it, as GitLab builds them. */
  ghost predicate OwnedBy(item: Item, owner: string) {
    exists rest :: item.web == Parsed("/" + owner + SEPARATOR + rest)
  }

  lemma OwnerRecovered(item: Item, owner: string)
    requires OwnedBy(item, owner) && Recoverable(owner)
    ensures Project(item.web) == Some(owner)
  {
    var rest :| item.web == Parsed("/" + owner + SEPARATOR + rest);
    RecoversExactly(owner, rest);
  }

  lemma {:induction false} WhereSame(kind: ActivityType, items: seq<Item>, a: Item -> bool, b: Item -> bool)
    requires forall item :: item in items ==> a(item) == b(item)
    ensures Where(kind, items, a) == Where(kind, items, b)
  {
    if items != [] {
      assert items[0] in items;
      WhereSame(kind, items[1..], a, b);
    }
  }

  /** The filter by web URL is the filter by owner, for every list of items whose owners' paths can be
      recovered; it does not panic on them. */
  lemma KeptByOwner(kind: ActivityType, items: seq<Item>, names: set<string>, owner: Item -> string)
    requires forall item :: item in items ==> OwnedBy(item, owner(item)) && Recoverable(owner(item))
    ensures !Panics(items) && Kept(kind, items, names) == Where(kind, items, (item: Item) => owner(item) in names)
  {
    forall item | item in items
      ensures Project(item.web) == Some(owner(item))
    {
      OwnerRecovered(item, owner(item));
    }
    WhereSame(kind, items, Belongs(names), (item: Item) => owner(item) in names);
  }

  function KeptPages(kind: ActivityType, answer: Option<seq<seq<Item>>>, names: set<string>): Outcome {
    if answer.None? then None else Some(Kept(kind, Flatten(answer.value), names))
  }

  function NoteCall(server: GitLab, q: Query, repo: string): Change -> Outcome {
    (change: Change) =>
      match server.notes(repo, change.number)
      case None => None
      case Some(notes) => Some(Reviews(q, change, notes, true))
  }

  function DiscussionCall(server: GitLab, q: Query): Repository -> Outcome {
    (repo: Repository) =>
      match server.changes(repo.fullName)
      case None => None
      case Some(changes) => Collect(changes, NoteCall(server, q, repo.fullName))
  }

  function GitLabFetch(server: GitLab, q: Query, repo: string): Outcome {
    if Commit in q.types then Convert(Commit, server.commits(q.username, repo)) else Some([])
  }

  function GitLabSearch(server: GitLab, q: Query, repos: seq<Repository>): Outcome {
    Then(if Issue in q.types then KeptPages(Issue, server.issues(q.username), NameSet(repos)) else Some([]),
         Then(if MergedPullRequest in q.types then KeptPages(MergedPullRequest, server.merged(q.username), NameSet(repos))
              else Some([]),
              if PullRequestReview in q.types then Collect(repos, DiscussionCall(server, q)) else Some([])))
  }

  /** A listing that is read holds an item whose web URL has no path. */
  predicate SearchPanics(server: GitLab, q: Query) {
    var issues, merged := server.issues(q.username), server.merged(q.username);
    || (Issue in q.types && issues.Some? && Panics(Flatten(issues.value)))
    || (MergedPullRequest in q.types && merged.Some? && Panics(Flatten(merged.value)) && (Issue in q.types ==> issues.Some?))
  }

  // ----- What the answers are, item by item

  /** The item's web URL names one of the projects. */
  predicate NamesOne(item: Item, names: set<string>) {
    match Project(item.web)
    case None => false
    case Some(name) => name in names
  }

  /** The activities are the items at these places: each one whose web URL names one of the projects,
      once and in order, and no other. */
  ghost predicate NamedAt(kind: ActivityType, items: seq<Item>, names: set<string>, activities: seq<Activity>, places: seq<nat>) {
    && Ascending(places, |items|)
    && (forall i: nat :: i < |items| ==> (i in places <==> NamesOne(items[i], names)))
    && |activities| == |places|
    && forall k :: 0 <= k < |places| ==>
         var item := items[places[k]];
         activities[k] == Activity(kind, item.title, item.url, item.createdAt, item.summary)
  }

  ghost predicate Named(kind: ActivityType, items: seq<Item>, names: set<string>, activities: seq<Activity>) {
    exists places :: NamedAt(kind, items, names, activities, places)
  }

  lemma NamedItem(kind: ActivityType, items: seq<Item>, names: set<string>, activities: seq<Activity>, a: Activity)
    returns (item: Item)
    requires Named(kind, items, names, activities) && a in activities
    ensures item in items && NamesOne(item, names)
    ensures a == Activity(kind, item.title, item.url, item.createdAt, item.summary)
  {
    var places :| NamedAt(kind, items, names, activities, places);
    var k :| 0 <= k < |activities| && activities[k] == a;
    item := items[places[k]];
    assert places[k] in places;
  }

  lemma {:induction false} KeptAreNamed(kind: ActivityType, items: seq<Item>, names: set<string>)
    ensures Named(kind, items, names, Kept(kind, items, names))
  {
    if items == [] {
      assert NamedAt(kind, items, names, [], []);
    } else {
      KeptAreNamed(kind, items[..|items| - 1], names);
      OneMoreKept(kind, items, names);
    }
  }

  lemma KeptOne(kind: ActivityType, item: Item, names: set<string>)
    ensures Kept(kind, [item], names) == if NamesOne(item, names) then [ToActivity(kind, item)] else []
  {
    assert Where(kind, [item][1..], Belongs(names)) == [];
  }

  lemma KeptPush(kind: ActivityType, items: seq<Item>, names: set<string>)
    requires items != []
    ensures var n := |items| - 1;
            Kept(kind, items, names)
            == Kept(kind, items[..n], names) + if NamesOne(items[n], names) then [ToActivity(kind, items[n])] else []
  {
    var n := |items| - 1;
    assert items == items[..n] + [items[n]];
    WhereAppend(kind, items[..n], [items[n]], Belongs(names));
    KeptOne(kind, items[n], names);
  }

  lemma OneMoreKept(kind: ActivityType, items: seq<Item>, names: set<string>)
    requires items != [] && Named(kind, items[..|items| - 1], names, Kept(kind, items[..|items| - 1], names))
    ensures Named(kind, items, names, Kept(kind, items, names))
  {
    var n := |items| - 1;
    var activities := Kept(kind, items[..n], names);
    var places :| NamedAt(kind, items[..n], names, activities, places);
    KeptPush(kind, items, names);
    if NamesOne(items[n], names) {
      NamedMore(kind, items, names, activities, places);
    } else {
      NamedSame(kind, items, names, activities, places);
      assert activities + [] == activities;
    }
  }

  lemma NamedMore(kind: ActivityType, items: seq<Item>, names: set<string>, activities: seq<Activity>, places: seq<nat>)
    requires items != [] && NamedAt(kind, items[..|items| - 1], names, activities, places)
    requires NamesOne(items[|items| - 1], names)
    ensures NamedAt(kind, items, names, activities + [ToActivity(kind, items[|items| - 1])], places + [|items| - 1])
  {
  }

  lemma NamedSame(kind: ActivityType, items: seq<Item>, names: set<string>, activities: seq<Activity>, places: seq<nat>)
    requires items != [] && NamedAt(kind, items[..|items| - 1], names, activities, places)
    requires !NamesOne(items[|items| - 1], names)
    ensures NamedAt(kind, items, names, activities, places)
  {
    assert |items| - 1 !in places;
  }

  predicate PathlessItem(items: seq<Item>) {
    exists item :: item in items && item.web == Parsed("")
  }

  predicate NotesFail(server: GitLab, repo: string) {
    var found := server.changes(repo);
    found.None? || exists change :: change in found.value && server.notes(repo, change.number).None?
  }

  /** For each merge request in order, the notes the user wrote himself within the period. */
  ghost predicate NoteParts(server: GitLab, q: Query, repo: string, changes: seq<Change>, parts: seq<seq<Activity>>) {
    && |parts| == |changes|
    && forall i :: 0 <= i < |changes| ==>
         var answer := server.notes(repo, changes[i].number);
         answer.Some? && OwnReviews(q, changes[i], answer.value, true, parts[i])
  }

  ghost predicate NotesAre(server: GitLab, q: Query, repo: string, activities: seq<Activity>) {
    var found := server.changes(repo);
    found.Some? && exists parts :: activities == Flatten(parts) && NoteParts(server, q, repo, found.value, parts)
  }

  lemma NotesExactly(server: GitLab, q: Query, repo: Repository)
    ensures var r := DiscussionCall(server, q)(repo);
            (r.None? <==> NotesFail(server, repo.fullName)) && (r.Some? ==> NotesAre(server, q, repo.fullName, r.value))
  {
    var name := repo.fullName;
    var found, call := server.changes(name), NoteCall(server, q, name);
    if found.Some? {
      CollectFails(found.value, call);
      if Collect(found.value, call).Some? {
        var parts := CollectParts(found.value, call);
        forall i | 0 <= i < |parts|
          ensures OwnReviews(q, found.value[i], server.notes(name, found.value[i].number).value, true, parts[i])
        {
          ReviewsAreOwn(q, found.value[i], server.notes(name, found.value[i].number).value, true);
        }
        assert NoteParts(server, q, name, found.value, parts);
      }
    }
  }

  /** Repository by repository, in order. */
  ghost predicate GroupNotes(server: GitLab, q: Query, repos: seq<Repository>, parts: seq<seq<Activity>>) {
    |parts| == |repos| && forall i :: 0 <= i < |repos| ==> NotesAre(server, q, repos[i].fullName, parts[i])
  }

  ghost predicate GroupNotesAre(server: GitLab, q: Query, repos: seq<Repository>, activities: seq<Activity>) {
    exists parts :: activities == Flatten(parts) && GroupNotes(server, q, repos, parts)
  }

  predicate GroupNotesFail(server: GitLab, repos: seq<Repository>) {
    exists repo :: repo in repos && NotesFail(server, repo.fullName)
  }

  lemma GroupNotesExactly(server: GitLab, q: Query, repos: seq<Repository>)
    ensures var r := Collect(repos, DiscussionCall(server, q));
            (r.None? <==> GroupNotesFail(server, repos)) && (r.Some? ==> GroupNotesAre(server, q, repos, r.value))
  {
    var call := DiscussionCall(server, q);
    CollectFails(repos, call);
    forall repo | repo in repos
      ensures call(repo).None? <==> NotesFail(server, repo.fullName)
    {
      NotesExactly(server, q, repo);
    }
    if Collect(repos, call).Some? {
      var parts := CollectParts(repos, call);
      forall i | 0 <= i < |repos|
        ensures NotesAre(server, q, repos[i].fullName, parts[i])
      {
        NotesExactly(server, q, repos[i]);
      }
      assert GroupNotes(server, q, repos, parts);
    }
  }

  /** The items of a listing that name one of the projects, where the type was asked for. */
  ghost predicate NamedIfAsked(kind: ActivityType, types: set<ActivityType>, answer: Option<seq<seq<Item>>>,
                               names: set<string>, activities: seq<Activity>) {
    if kind in types && answer.Some? then Named(kind, Flatten(answer.value), names, activities) else activities == []
  }

  ghost predicate SearchesAre(server: GitLab, q: Query, repos: seq<Repository>, issues: seq<Activity>, merged: seq<Activity>,
                              notes: seq<Activity>) {
    var names := set repo | repo in repos :: repo.fullName;
    && NamedIfAsked(Issue, q.types, server.issues(q.username), names, issues)
    && NamedIfAsked(MergedPullRequest, q.types, server.merged(q.username), names, merged)
    && (if PullRequestReview in q.types then GroupNotesAre(server, q, repos, notes) else notes == [])
  }

  predicate AnySearchFails(server: GitLab, q: Query, repos: seq<Repository>) {
    || (Issue in q.types && server.issues(q.username).None?)
    || (MergedPullRequest in q.types && server.merged(q.username).None?)
    || (PullRequestReview in q.types && GroupNotesFail(server, repos))
  }

  lemma KeptIfAsked(kind: ActivityType, types: set<ActivityType>, answer: Option<seq<seq<Item>>>, names: set<string>)
    ensures NamedIfAsked(kind, types, answer, names,
                         Brought(if kind in types then KeptPages(kind, answer, names) else Some([])))
  {
    if answer.Some? {
      KeptAreNamed(kind, Flatten(answer.value), names);
    }
  }

  lemma SearchExactly(server: GitLab, q: Query, repos: seq<Repository>)
    ensures var r := GitLabSearch(server, q, repos);
            && (r.None? <==> AnySearchFails(server, q, repos))
            && (r.Some? ==> exists issues, merged, notes ::
                  r.value == issues + (merged + notes) && SearchesAre(server, q, repos, issues, merged, notes))
  {
    KeptIfAsked(Issue, q.types, server.issues(q.username), NameSet(repos));
    KeptIfAsked(MergedPullRequest, q.types, server.merged(q.username), NameSet(repos));
    GroupNotesExactly(server, q, repos);
    var r := GitLabSearch(server, q, repos);
    if r.Some? {
      var issues := Brought(if Issue in q.types then KeptPages(Issue, server.issues(q.username), NameSet(repos)) else Some([]));
      var merged := Brought(if MergedPullRequest in q.types
                            then KeptPages(MergedPullRequest, server.merged(q.username), NameSet(repos)) else Some([]));
      var notes := Brought(if PullRequestReview in q.types then Collect(repos, DiscussionCall(server, q)) else Some([]));
      assert r.value == issues + (merged + notes) && SearchesAre(server, q, repos, issues, merged, notes);
    }
  }

  class GitLabFetcher {
    const server: GitLab

    constructor (server: GitLab)
      ensures this.server == server
    {
      this.server := server;
    }

    method FetchForUser(q: Query, repo: Repository) returns (r: Outcome)
      ensures r == GitLabFetch(server, q, repo.fullName)
      ensures r.None? <==> Commit in q.types && server.commits(q.username, repo.fullName).None?
      ensures r.Some? ==> ListedIfAsked(Commit, q.types, server.commits(q.username, repo.fullName), r.value)
    {
      if Commit in q.types {
        var answer := server.commits(q.username, repo.fullName);
        if answer.None? {
          return None;
        }
        var commits := ConvertItems(Commit, answer.value);
        return Some(commits);
      }
      return Some([]);
    }

    /** The filter loop of `searchIssues` and `searchMergedMRs`; `None` when it panics. */
    method KeepItems(kind: ActivityType, pages: seq<seq<Item>>, names: set<string>) returns (kept: Option<seq<Activity>>)
      ensures kept == if Panics(Flatten(pages)) then None else Some(Kept(kind, Flatten(pages), names))
      ensures kept.None? <==> PathlessItem(Flatten(pages))
      ensures kept.Some? ==> Named(kind, Flatten(pages), names, kept.value)
    {
      KeptAreNamed(kind, Flatten(pages), names);
      var activities := [];
      for i := 0 to |pages|
        invariant activities + Kept(kind, Flatten(pages[i..]), names) == Kept(kind, Flatten(pages), names)
        invariant Panics(Flatten(pages[i..])) == Panics(Flatten(pages))
      {
        var page := KeepPage(kind, pages[i], names);
        assert pages[i..][1..] == pages[i + 1..];
        assert Flatten(pages[i..]) == pages[i] + Flatten(pages[i + 1..]);
        if page.None? {
          return None;
        }
        WhereAppend(kind, pages[i], Flatten(pages[i + 1..]), Belongs(names));
        Regroup(activities, page.value, Kept(kind, Flatten(pages[i + 1..]), names));
        activities := activities + page.value;
      }
      assert activities + [] == activities;
      kept := Some(activities);
    }

    method KeepPage(kind: ActivityType, items: seq<Item>, names: set<string>) returns (kept: Option<seq<Activity>>)
      ensures kept == if Panics(items) then None else Some(Kept(kind, items, names))
    {
      var activities := [];
      for i := 0 to |items|
        invariant activities == Kept(kind, items[..i], names)
        invariant forall k :: 0 <= k < i ==> Project(items[k].web).Some?
      {
        var repoName := ExtractProjectPath(items[i].web);
        if repoName.None? {
          assert items[i] in items;
          return None;
        }
        KeptPush(kind, items[..i + 1], names);
        assert items[..i + 1][..i] == items[..i];
        if repoName.value !in names {
          continue;
        }
        activities := activities + [ToActivity(kind, items[i])];
      }
      assert items[..|items|] == items;
      kept := Some(activities);
    }

    method SearchMRDiscussions(q: Query, repos: seq<Repository>) returns (r: Outcome)
      ensures r == Collect(repos, DiscussionCall(server, q))
      ensures r.None? <==> GroupNotesFail(server, repos)
      ensures r.Some? ==> GroupNotesAre(server, q, repos, r.value)
    {
      GroupNotesExactly(server, q, repos);
      var activities := [];
      ghost var call := DiscussionCall(server, q);
      assert repos[0..] == repos;
      PrependNothing(Collect(repos, call));
      for i := 0 to |repos|
        invariant Prepend(activities, Collect(repos[i..], call)) == Collect(repos, call)
      {
        assert repos[i..][1..] == repos[i + 1..];
        var found := RepositoryDiscussions(q, repos[i]);
        if found.None? {
          return None;
        }
        PrependTwice(activities, found.value, Collect(repos[i + 1..], call));
        activities := activities + found.value;
      }
      assert activities + [] == activities;
      return Some(activities);
    }

    /** The inner loops of `searchMRDiscussions`. */
    method RepositoryDiscussions(q: Query, repo: Repository) returns (r: Outcome)
      ensures r == DiscussionCall(server, q)(repo)
    {
      var found := server.changes(repo.fullName);
      if found.None? {
        return None;
      }
      var activities := [];
      ghost var call := NoteCall(server, q, repo.fullName);
      assert found.value[0..] == found.value;
      PrependNothing(Collect(found.value, call));
      for i := 0 to |found.value|
        invariant Prepend(activities, Collect(found.value[i..], call)) == Collect(found.value, call)
      {
        var change := found.value[i];
        assert found.value[i..][1..] == found.value[i + 1..];
        var answer := server.notes(repo.fullName, change.number);
        if answer.None? {
          return None;
        }
        var reviews := CollectReviews(q, change, answer.value, true);
        PrependTwice(activities, reviews, Collect(found.value[i + 1..], call));
        activities := activities + reviews;
      }
      assert activities + [] == activities;
      return Some(activities);
    }

    /** `panics` is set when the call does not return. */
    method SearchActivities(q: Query, repos: seq<Repository>) returns (r: Outcome, panics: bool)
      ensures panics == SearchPanics(server, q)
      ensures panics <==>
                var issues, merged := server.issues(q.username), server.merged(q.username);
                || (Issue in q.types && issues.Some? && PathlessItem(Flatten(issues.value)))
                || (&& MergedPullRequest in q.types && merged.Some? && PathlessItem(Flatten(merged.value))
                    && (Issue in q.types ==> issues.Some?))
      ensures !panics ==> r == GitLabSearch(server, q, repos)
      ensures !panics ==> (r.None? <==> AnySearchFails(server, q, repos))
      ensures !panics && r.Some? ==> exists issues, merged, notes ::
                r.value == issues + (merged + notes) && SearchesAre(server, q, repos, issues, merged, notes)
    {
      SearchExactly(server, q, repos);
      var repoSet := NameSet(repos);
      var issues, merged, discussions := Some([]), Some([]), Some([]);
      if Issue in q.types {
        var pages := server.issues(q.username);
        if pages.None? {
          return None, false;
        }
        issues := KeepItems(Issue, pages.value, repoSet);
        if issues.None? {
          return None, true;
        }
      }
      if MergedPullRequest in q.types {
        var pages := server.merged(q.username);
        if pages.None? {
          return None, false;
        }
        merged := KeepItems(MergedPullRequest, pages.value, repoSet);
        if merged.None? {
          return None, true;
        }
      }
      if PullRequestReview in q.types {
        discussions := SearchMRDiscussions(q, repos);
      }
      r, panics := Then(issues, Then(merged, discussions)), false;
    }
  }

  lemma {:induction false} WhereAppend(kind: ActivityType, a: seq<Item>, b: seq<Item>, keep: Item -> bool)
    ensures Where(kind, a + b, keep) == Where(kind, a, keep) + Where(kind, b, keep)
  {
    if a == [] {
      assert a + b == b;
    } else {
      WhereAppend(kind, a[1..], b, keep);
      assert (a + b)[1..] == a[1..] + b;
      Regroup(if keep(a[0]) then [ToActivity(kind, a[0])] else [], Where(kind, a[1..], keep), Where(kind, b, keep));
    }
  }

  // ----- What one repository contributes

  function Fetch(server: GitLab, q: Query): Repository -> Outcome {
    (repo: Repository) => GitLabFetch(server, q, repo.fullName)
  }

  /** A repository's own share of a listing of everything the user did. */
  function ShareOf(kind: ActivityType, items: seq<Item>): string -> Outcome {
    (name: string) => Some(Kept(kind, items, {name}))
  }

  function Listed(answer: Option<seq<seq<Item>>>): seq<Item> {
    if answer.Some? then Flatten(answer.value) else []
  }

  function IssuesOf(server: GitLab, q: Query): Repository -> Outcome {
    ByName(Asked(Issue in q.types, ShareOf(Issue, Listed(server.issues(q.username)))))
  }

  function MergedOf(server: GitLab, q: Query): Repository -> Outcome {
    ByName(Asked(MergedPullRequest in q.types, ShareOf(MergedPullRequest, Listed(server.merged(q.username)))))
  }

  function DiscussionsOf(server: GitLab, q: Query): Repository -> Outcome {
    Asked(PullRequestReview in q.types, DiscussionCall(server, q))
  }

  /** Everything of the asked types that belongs to one repository. */
  function Contribution(server: GitLab, q: Query): Repository -> Outcome {
    Both(Fetch(server, q), Both(IssuesOf(server, q), Both(MergedOf(server, q), DiscussionsOf(server, q))))
  }

  lemma {:induction false} WhereEither(kind: ActivityType, items: seq<Item>,
                                       keep: Item -> bool, k1: Item -> bool, k2: Item -> bool)
    requires forall item :: (keep(item) <==> k1(item) || k2(item)) && !(k1(item) && k2(item))
    ensures multiset(Where(kind, items, keep)) == multiset(Where(kind, items, k1)) + multiset(Where(kind, items, k2))
  {
    if items != [] {
      WhereEither(kind, items[1..], keep, k1, k2);
    }
  }

  lemma {:induction false} WhereNone(kind: ActivityType, items: seq<Item>, keep: Item -> bool)
    requires forall item :: !keep(item)
    ensures Where(kind, items, keep) == []
  {
    if items != [] {
      WhereNone(kind, items[1..], keep);
    }
  }

  lemma KeptOneMore(kind: ActivityType, items: seq<Item>, names: set<string>, name: string)
    requires name !in names
    ensures multiset(Kept(kind, items, {name} + names))
         == multiset(Kept(kind, items, {name})) + multiset(Kept(kind, items, names))
  {
    WhereEither(kind, items, Belongs({name} + names), Belongs({name}), Belongs(names));
  }

  lemma ShareFirst(kind: ActivityType, items: seq<Item>, names: seq<string>)
    requires names != []
    ensures multiset(Concat(names, ShareOf(kind, items)))
         == multiset(Kept(kind, items, {names[0]})) + multiset(Concat(names[1..], ShareOf(kind, items)))
  {
    AddFirst(Kept(kind, items, {names[0]}), Concat(names[1..], ShareOf(kind, items)));
  }

  /** Filtering one listing by the whole group keeps each repository's share exactly once. */
  lemma {:induction false} KeptIsShares(kind: ActivityType, items: seq<Item>, repos: seq<Repository>)
    requires DistinctNames(repos)
    ensures multiset(Kept(kind, items, NameSet(repos))) == multiset(Concat(Names(repos), ShareOf(kind, items)))
  {
    if repos == [] {
      WhereNone(kind, items, Belongs(NameSet(repos)));
    } else {
      KeptIsShares(kind, items, repos[1..]);
      NameSetFirst(repos);
      KeptOneMore(kind, items, NameSet(repos[1..]), repos[0].fullName);
      assert Names(repos)[1..] == Names(repos[1..]);
      ShareFirst(kind, items, Names(repos));
    }
  }

  lemma AddFirst<T>(a: seq<T>, b: seq<T>)
    ensures multiset(a + b) == multiset(a) + multiset(b)
  {
  }

  lemma SearchedOnce(repos: seq<Repository>, kind: ActivityType, wanted: bool, answer: Option<seq<seq<Item>>>)
    requires DistinctNames(repos) && (wanted ==> answer.Some?)
    ensures multiset(Brought(if wanted then KeptPages(kind, answer, NameSet(repos)) else Some([])))
         == multiset(Concat(repos, ByName(Asked(wanted, ShareOf(kind, Listed(answer))))))
  {
    ConcatNames(repos, Asked(wanted, ShareOf(kind, Listed(answer))));
    if wanted {
      KeptIsShares(kind, Listed(answer), repos);
      WasAsked(Names(repos), ShareOf(kind, Listed(answer)));
    } else {
      NotAsked(Names(repos), ShareOf(kind, Listed(answer)));
    }
  }

  lemma DiscussedOnce(server: GitLab, q: Query, repos: seq<Repository>)
    requires PullRequestReview in q.types ==> Collect(repos, DiscussionCall(server, q)).Some?
    ensures Brought(if PullRequestReview in q.types then Collect(repos, DiscussionCall(server, q)) else Some([]))
         == Concat(repos, DiscussionsOf(server, q))
  {
    if PullRequestReview in q.types {
      CollectIsConcat(repos, DiscussionCall(server, q));
      WasAsked(repos, DiscussionCall(server, q));
    } else {
      NotAsked(repos, DiscussionCall(server, q));
    }
  }

  /** The two calls for a group together bring each repository's contribution once. */
  lemma GroupBrings(server: GitLab, q: Query, repos: seq<Repository>)
    requires DistinctNames(repos) && GitLabSearch(server, q, repos).Some?
    ensures multiset(Concat(repos, Fetch(server, q)) + GitLabSearch(server, q, repos).value)
         == multiset(Concat(repos, Contribution(server, q)))
  {
    SearchedOnce(repos, Issue, Issue in q.types, server.issues(q.username));
    SearchedOnce(repos, MergedPullRequest, MergedPullRequest in q.types, server.merged(q.username));
    DiscussedOnce(server, q, repos);
    var mergedAndNotes := Both(MergedOf(server, q), DiscussionsOf(server, q));
    ConcatBoth(repos, MergedOf(server, q), DiscussionsOf(server, q));
    ConcatBoth(repos, IssuesOf(server, q), mergedAndNotes);
    ConcatBoth(repos, Fetch(server, q), Both(IssuesOf(server, q), mergedAndNotes));
  }

  // ----- One repository's contribution, item by item

  ghost predicate ContributionAre(server: GitLab, q: Query, repo: string, commits: seq<Activity>, issues: seq<Activity>,
                                  merged: seq<Activity>, notes: seq<Activity>) {
    && ListedIfAsked(Commit, q.types, server.commits(q.username, repo), commits)
    && NamedIfAsked(Issue, q.types, server.issues(q.username), {repo}, issues)
    && NamedIfAsked(MergedPullRequest, q.types, server.merged(q.username), {repo}, merged)
    && (if PullRequestReview in q.types && !NotesFail(server, repo) then NotesAre(server, q, repo, notes) else notes == [])
  }

  ghost predicate Contributes(server: GitLab, q: Query, repo: string, activities: seq<Activity>) {
    exists commits, issues, merged, notes ::
      activities == commits + (issues + (merged + notes)) && ContributionAre(server, q, repo, commits, issues, merged, notes)
  }

  lemma ContributionInParts(server: GitLab, q: Query, repo: Repository)
    ensures Brought(Contribution(server, q)(repo))
         == Brought(GitLabFetch(server, q, repo.fullName))
          + (Brought(IssuesOf(server, q)(repo))
             + (Brought(MergedOf(server, q)(repo)) + Brought(DiscussionsOf(server, q)(repo))))
  {
    assert Both(IssuesOf(server, q), Both(MergedOf(server, q), DiscussionsOf(server, q)))(repo)
        == Some(Brought(IssuesOf(server, q)(repo))
                + (Brought(MergedOf(server, q)(repo)) + Brought(DiscussionsOf(server, q)(repo))));
  }

  lemma ShareIfAsked(kind: ActivityType, types: set<ActivityType>, answer: Option<seq<seq<Item>>>, repo: Repository)
    ensures NamedIfAsked(kind, types, answer, {repo.fullName},
                         Brought(ByName(Asked(kind in types, ShareOf(kind, Listed(answer))))(repo)))
  {
    KeptAreNamed(kind, Listed(answer), {repo.fullName});
  }

  lemma ContributionExactly(server: GitLab, q: Query, repo: Repository)
    ensures Contributes(server, q, repo.fullName, Brought(Contribution(server, q)(repo)))
  {
    var name := repo.fullName;
    if server.commits(q.username, name).Some? {
      ConvertedAsListed(Commit, server.commits(q.username, name).value);
    }
    ShareIfAsked(Issue, q.types, server.issues(q.username), repo);
    ShareIfAsked(MergedPullRequest, q.types, server.merged(q.username), repo);
    NotesExactly(server, q, repo);
    ContributionInParts(server, q, repo);
    assert ContributionAre(server, q, name, Brought(GitLabFetch(server, q, name)), Brought(IssuesOf(server, q)(repo)),
                           Brought(MergedOf(server, q)(repo)), Brought(DiscussionsOf(server, q)(repo)));
  }
}
