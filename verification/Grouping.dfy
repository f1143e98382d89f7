/** `GenerateReport` splits a team's repositories into groups by platform and token. */
module Grouping {
  import opened Seqs
  import opened Domain

  /** One fetcher's repositories. */
  datatype Group = Group(platform: string, token: string, repos: seq<Repository>)

  /** The map key: platform and token with a NUL between them. */
  function Key(platform: string, token: string): string {
    platform + "\0" + token
  }

  function KeyOf(r: Repository): string {
    Key(r.platform, r.apiToken)
  }

  /** PostgreSQL text holds no NUL, so neither do platform names. */
  ghost predicate NulFree(repos: seq<Repository>) {
    forall r :: r in repos ==> '\0' !in r.platform
  }

  /** Without a NUL in the platform the key tells platform and token apart. */
  lemma KeyInjective(p1: string, t1: string, p2: string, t2: string)
    requires '\0' !in p1 && '\0' !in p2
    ensures Key(p1, t1) == Key(p2, t2) <==> p1 == p2 && t1 == t2
  {
    var k1, k2 := Key(p1, t1), Key(p2, t2);
    assert k1[|p1|] == '\0' && k2[|p2|] == '\0';
    assert forall i :: 0 <= i < |p1| ==> k1[i] == p1[i] != '\0';
    assert forall i :: 0 <= i < |p2| ==> k2[i] == p2[i] != '\0';
    if k1 == k2 {
      assert |p1| == |p2|;
      assert p1 == k1[..|p1|] && p2 == k2[..|p2|];
      assert t1 == k1[|p1| + 1..] && t2 == k2[|p2| + 1..];
    }
  }

  lemma SharedKey(p1: string, p2: string)
    requires p1 + "\0" <= p2
    ensures exists t1, t2 :: Key(p1, t1) == Key(p2, t2)
  {
    var rest := p2[|p1| + 1..];
    assert p2 == p1 + "\0" + rest;
    assert Key(p2, "") == Key(p1, rest + "\0");
  }

  lemma KeyInside(p1: string, t1: string, p2: string, t2: string)
    requires Key(p1, t1) == Key(p2, t2) && |p1| < |p2|
    ensures p1 + "\0" <= p2
  {
    var k := Key(p1, t1);
    assert k[|p1|] == '\0' && k[..|p1|] == p1;
    assert k[..|p2|] == p2;
    assert p2[..|p1| + 1] == p1 + "\0";
  }

  lemma SameLength(p1: string, t1: string, p2: string, t2: string)
    requires Key(p1, t1) == Key(p2, t2) && |p1| == |p2|
    ensures p1 == p2
  {
    assert Key(p1, t1)[..|p1|] == p1 && Key(p2, t2)[..|p2|] == p2;
  }

  /** Two platforms can share a key if and only if they are the same or one, followed by a NUL, begins
      the other. */
  lemma SharedKeyExactly(p1: string, p2: string)
    ensures (exists t1, t2 :: Key(p1, t1) == Key(p2, t2)) <==> p1 == p2 || p1 + "\0" <= p2 || p2 + "\0" <= p1
  {
    if t1, t2 :| Key(p1, t1) == Key(p2, t2) {
      if |p1| < |p2| {
        KeyInside(p1, t1, p2, t2);
      } else if |p2| < |p1| {
        KeyInside(p2, t2, p1, t1);
      } else {
        SameLength(p1, t1, p2, t2);
      }
    }
    if p1 == p2 {
      assert Key(p1, "") == Key(p2, "");
    } else if p1 + "\0" <= p2 {
      SharedKey(p1, p2);
    } else if p2 + "\0" <= p1 {
      SharedKey(p2, p1);
      var t2, t1 :| Key(p2, t2) == Key(p1, t1);
      assert Key(p1, t1) == Key(p2, t2);
    }
  }

  /** Repositories without a token are skipped with a warning. */
  function BearsToken(): Repository -> bool {
    (r: Repository) => r.apiToken != ""
  }

  function HasKey(key: string): Repository -> bool {
    (r: Repository) => r.apiToken != "" && KeyOf(r) == key
  }

  function LacksKey(key: string): Repository -> bool {
    (r: Repository) => KeyOf(r) != key
  }

  function TokenBearing(repos: seq<Repository>): seq<Repository> {
    Filter(repos, BearsToken())
  }

  /** The token-bearing repositories with this key, in order. */
  function Having(repos: seq<Repository>, key: string): seq<Repository> {
    Filter(repos, HasKey(key))
  }

  /** The repositories left when those with one key are taken out. */
  function Lacking(repos: seq<Repository>, key: string): seq<Repository> {
    Filter(repos, LacksKey(key))
  }

  ghost predicate IsGrouping(repos: seq<Repository>, groups: seq<Group>) {
    && (forall g :: g in groups ==>
          g.repos != [] && Key(g.platform, g.token) == KeyOf(g.repos[0]) && g.platform == g.repos[0].platform
          && g.repos == Having(repos, Key(g.platform, g.token)))
    && (forall i, j :: 0 <= i < j < |groups| ==>
          Key(groups[i].platform, groups[i].token) != Key(groups[j].platform, groups[j].token))
    && (forall r :: r in repos && r.apiToken != "" ==> exists g :: g in groups && Key(g.platform, g.token) == KeyOf(r))
  }

  ghost predicate GroupOk(repos: seq<Repository>, key: string, g: Group) {
    && g.repos == Having(repos, key) && g.repos != [] && g.platform == g.repos[0].platform
    && Key(g.platform, g.token) == KeyOf(g.repos[0]) == key
  }

  ghost predicate MapOk(repos: seq<Repository>, groupMap: map<string, Group>) {
    && (forall key :: key in groupMap ==> GroupOk(repos, key, groupMap[key]))
    && (forall key :: key !in groupMap ==> Having(repos, key) == [])
    && (forall r :: r in repos && r.apiToken != "" ==> KeyOf(r) in groupMap)
  }

  /** The grouping loop; the order of the result is the map's, that is, arbitrary. */
  method GroupRepos(teamRepos: seq<Repository>) returns (groups: seq<Group>)
    ensures IsGrouping(teamRepos, groups)
  {
    var groupMap: map<string, Group> := map[];
    for i := 0 to |teamRepos|
      invariant MapOk(teamRepos[..i], groupMap)
    {
      var r := teamRepos[i];
      assert teamRepos[..i + 1] == teamRepos[..i] + [r];
      ghost var before := groupMap;
      if r.apiToken != "" {
        var key := KeyOf(r);
        if key in groupMap {
          groupMap := groupMap[key := groupMap[key].(repos := groupMap[key].repos + [r])];
        } else {
          groupMap := groupMap[key := Group(r.platform, r.apiToken, [r])];
        }
      }
      MapStep(teamRepos[..i], r, before, groupMap);
    }
    assert teamRepos[..|teamRepos|] == teamRepos;
    groups := ListGroups(groupMap);
    forall r | r in teamRepos && r.apiToken != ""
      ensures exists g :: g in groups && Key(g.platform, g.token) == KeyOf(r)
    {
      assert KeyOf(r) in groupMap;
      assert groupMap[KeyOf(r)] in groups;
    }
  }

  lemma HavingPush(repos: seq<Repository>, r: Repository, key: string)
    ensures Having(repos + [r], key) == if HasKey(key)(r) then Having(repos, key) + [r] else Having(repos, key)
  {
    FilterPush(repos, r, HasKey(key));
    assert Having(repos, key) + [] == Having(repos, key);
  }

  lemma GroupGrows(repos: seq<Repository>, r: Repository, key: string, g: Group)
    requires GroupOk(repos, key, g)
    ensures GroupOk(repos + [r], key, if HasKey(key)(r) then g.(repos := g.repos + [r]) else g)
  {
    HavingPush(repos, r, key);
  }

  lemma GroupBegins(repos: seq<Repository>, r: Repository)
    requires r.apiToken != "" && Having(repos, KeyOf(r)) == []
    ensures GroupOk(repos + [r], KeyOf(r), Group(r.platform, r.apiToken, [r]))
  {
    HavingPush(repos, r, KeyOf(r));
  }

  lemma MapStep(repos: seq<Repository>, r: Repository, before: map<string, Group>, after: map<string, Group>)
    requires MapOk(repos, before)
    requires after == if r.apiToken == "" then before
                      else if KeyOf(r) in before then before[KeyOf(r) := before[KeyOf(r)].(repos := before[KeyOf(r)].repos + [r])]
                      else before[KeyOf(r) := Group(r.platform, r.apiToken, [r])]
    ensures MapOk(repos + [r], after)
  {
    forall key | key in after
      ensures GroupOk(repos + [r], key, after[key])
    {
      if key in before {
        GroupGrows(repos, r, key, before[key]);
      } else {
        GroupBegins(repos, r);
      }
    }
    forall key | key !in after
      ensures Having(repos + [r], key) == []
    {
      HavingPush(repos, r, key);
    }
  }

  method ListGroups(groupMap: map<string, Group>) returns (groups: seq<Group>)
    requires forall key :: key in groupMap ==> Key(groupMap[key].platform, groupMap[key].token) == key
    ensures forall g :: g in groups <==> g in groupMap.Values
    ensures forall i, j :: 0 <= i < j < |groups| ==>
              Key(groups[i].platform, groups[i].token) != Key(groups[j].platform, groups[j].token)
  {
    groups := [];
    var keys := groupMap.Keys;
    while keys != {}
      invariant keys <= groupMap.Keys
      invariant forall g :: g in groups ==>
                  Key(g.platform, g.token) in groupMap.Keys - keys && g == groupMap[Key(g.platform, g.token)]
      invariant forall key :: key in groupMap.Keys - keys ==> groupMap[key] in groups
      invariant forall i, j :: 0 <= i < j < |groups| ==>
                  Key(groups[i].platform, groups[i].token) != Key(groups[j].platform, groups[j].token)
      decreases keys
    {
      var key :| key in keys;
      ghost var before := groups;
      groups := groups + [groupMap[key]];
      keys := keys - {key};
      assert forall g :: g in before ==> g in groups;
      assert groups[|groups| - 1] == groupMap[key];
    }
  }

  // ----- The groups partition the repositories

  function AllRepos(groups: seq<Group>): seq<Repository> {
    if groups == [] then [] else groups[0].repos + AllRepos(groups[1..])
  }

  lemma {:induction false} AllReposPush(groups: seq<Group>, g: Group)
    ensures AllRepos(groups + [g]) == AllRepos(groups) + g.repos
  {
    if groups == [] {
      assert AllRepos([g]) == g.repos + AllRepos([]);
      assert [] + [g] == [g];
    } else {
      AllReposPush(groups[1..], g);
      assert (groups + [g])[1..] == groups[1..] + [g];
      Regroup(groups[0].repos, AllRepos(groups[1..]), g.repos);
    }
  }

  lemma TakeOut(repos: seq<Repository>, key: string)
    ensures multiset(TokenBearing(repos)) == multiset(Having(repos, key)) + multiset(TokenBearing(Lacking(repos, key)))
  {
    var both := (r: Repository) => KeyOf(r) != key && r.apiToken != "";
    FilterFilter(repos, LacksKey(key), BearsToken(), both);
    FilterEither(repos, BearsToken(), HasKey(key), both);
  }

  lemma StillHaving(repos: seq<Repository>, key: string, other: string)
    requires key != other
    ensures Having(Lacking(repos, key), other) == Having(repos, other)
  {
    FilterFilter(repos, LacksKey(key), HasKey(other), HasKey(other));
  }

  lemma GroupingOfRest(repos: seq<Repository>, groups: seq<Group>)
    requires IsGrouping(repos, groups) && groups != []
    ensures IsGrouping(Lacking(repos, Key(groups[0].platform, groups[0].token)), groups[1..])
  {
    var key := Key(groups[0].platform, groups[0].token);
    var left := Lacking(repos, key);
    FilterMembers(repos, LacksKey(key));
    forall g | g in groups[1..]
      ensures g.repos == Having(left, Key(g.platform, g.token))
    {
      StillHaving(repos, key, Key(g.platform, g.token));
    }
    forall r | r in left && r.apiToken != ""
      ensures exists g :: g in groups[1..] && Key(g.platform, g.token) == KeyOf(r)
    {
      var g :| g in groups && Key(g.platform, g.token) == KeyOf(r);
      assert g in groups[1..];
    }
  }

  /** Every token-bearing repository is in exactly one group, once. */
  lemma {:induction false} GroupsPartition(repos: seq<Repository>, groups: seq<Group>)
    requires IsGrouping(repos, groups)
    ensures multiset(AllRepos(groups)) == multiset(TokenBearing(repos))
    decreases |groups|
  {
    if groups == [] {
      FilterNone(repos, BearsToken());
    } else {
      var key := Key(groups[0].platform, groups[0].token);
      GroupingOfRest(repos, groups);
      GroupsPartition(Lacking(repos, key), groups[1..]);
      TakeOut(repos, key);
      assert groups[0] in groups;
    }
  }

  /** A group holds exactly the repositories of its platform and token. */
  lemma GroupMembers(repos: seq<Repository>, groups: seq<Group>, g: Group)
    requires IsGrouping(repos, groups) && NulFree(repos) && g in groups
    ensures forall r :: r in g.repos <==> r in repos && r.apiToken != "" && r.platform == g.platform && r.apiToken == g.token
  {
    var key := Key(g.platform, g.token);
    FilterMembers(repos, HasKey(key));
    assert g.repos[0] in g.repos;
    forall r | r in repos
      ensures KeyOf(r) == key <==> r.platform == g.platform && r.apiToken == g.token
    {
      KeyInjective(r.platform, r.apiToken, g.platform, g.token);
    }
  }
}
