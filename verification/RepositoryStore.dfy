/** The repository store: rows by identifier, unique by full name and platform. Saving goes by the
    identifier, upserting by the name, and an upsert overwrites the token. */
module RepositoryStore {
  import opened Backup
  import opened Seqs
  import opened Utf8

  predicate NameTaken(repos: map<string, RepoRow>, row: RepoRow) {
    exists r :: r in repos && SameRepo(repos[r], row)
  }

  /** The row whose name conflicts gets the new name, address and token; its identifier, full name and
      platform stay. */
  function Overwritten(repos: map<string, RepoRow>, row: RepoRow): map<string, RepoRow> {
    map r | r in repos ::
      if SameRepo(repos[r], row) then repos[r].(name := row.name, url := row.url, token := row.token) else repos[r]
  }

  /** An identifier in use by a repository of another name is refused; the caller ignores the error. */
  function Upserted(repos: map<string, RepoRow>, r: Row<RepoRow>): map<string, RepoRow> {
    if NameTaken(repos, r.value) then Overwritten(repos, r.value)
    else if r.id in repos then repos
    else repos[r.id := r.value]
  }

  /** Everything a report discovers is upserted, one repository after the other. */
  function Discovered(repos: map<string, RepoRow>, found: seq<Row<RepoRow>>): map<string, RepoRow> {
    if found == [] then repos else Upserted(Discovered(repos, found[..|found| - 1]), found[|found| - 1])
  }

  lemma UpsertUnique(repos: map<string, RepoRow>, r: Row<RepoRow>)
    requires UniqueRepos(repos)
    ensures UniqueRepos(Upserted(repos, r))
    ensures NameTaken(Upserted(repos, r), r.value) == (NameTaken(repos, r.value) || r.id !in repos)
  {
    var after := Upserted(repos, r);
    if NameTaken(repos, r.value) {
      var id :| id in repos && SameRepo(repos[id], r.value);
      assert SameRepo(after[id], r.value);
    } else if r.id !in repos {
      assert SameRepo(after[r.id], r.value);
      assert forall s :: s in repos ==> !SameRepo(repos[s], r.value);
    }
  }

  /** What becomes of a row that was there: a row of the same name takes over the upserted name, address
      and token and keeps its identity; any other row stays as it was. */
  lemma UpsertRow(repos: map<string, RepoRow>, r: Row<RepoRow>, id: string)
    requires id in repos
    ensures id in Upserted(repos, r)
    ensures Upserted(repos, r)[id]
         == if SameRepo(repos[id], r.value)
            then RepoRow(r.value.name, repos[id].fullName, r.value.url, repos[id].platform, r.value.token) else repos[id]
  {
  }

  /** What is new: the upserted row itself, exactly when neither its name nor its identifier is in use. */
  lemma UpsertNew(repos: map<string, RepoRow>, r: Row<RepoRow>, id: string)
    requires id !in repos
    ensures id in Upserted(repos, r) <==> id == r.id && forall s :: s in repos ==> !SameRepo(repos[s], r.value)
    ensures id in Upserted(repos, r) ==> Upserted(repos, r)[id] == r.value
  {
  }

  /** The last of the found rows that has the row's name. */
  predicate LastFinding(found: seq<Row<RepoRow>>, row: RepoRow, k: nat) {
    k < |found| && SameRepo(row, found[k].value) && forall j :: k < j < |found| ==> !SameRepo(row, found[j].value)
  }

  /** After everything was upserted a stored row has the name, address and token of the last finding of
      it, and is as it was if it was not found. */
  lemma {:induction false} RowAfter(repos: map<string, RepoRow>, found: seq<Row<RepoRow>>, id: string)
    requires id in repos
    ensures id in Discovered(repos, found)
    ensures forall k: nat :: LastFinding(found, repos[id], k) ==>
              var v := found[k].value;
              Discovered(repos, found)[id] == RepoRow(v.name, repos[id].fullName, v.url, repos[id].platform, v.token)
    ensures (forall k :: 0 <= k < |found| ==> !SameRepo(repos[id], found[k].value)) ==>
              Discovered(repos, found)[id] == repos[id]
    ensures SameRepo(Discovered(repos, found)[id], repos[id])
  {
    if found != [] {
      var n := |found| - 1;
      RowAfter(repos, found[..n], id);
      UpsertRow(Discovered(repos, found[..n]), found[n], id);
      EarlierFinding(found, repos[id]);
    }
  }

  lemma EarlierFinding(found: seq<Row<RepoRow>>, row: RepoRow)
    requires found != []
    ensures forall k: nat :: LastFinding(found, row, k) && k < |found| - 1 ==>
              LastFinding(found[..|found| - 1], row, k) && !SameRepo(row, found[|found| - 1].value)
  {
  }

  ghost predicate Finds(found: seq<Row<RepoRow>>, row: RepoRow) {
    exists k :: 0 <= k < |found| && SameRepo(row, found[k].value)
  }

  ghost predicate Tokenless(found: seq<Row<RepoRow>>) {
    forall k :: 0 <= k < |found| ==> found[k].value.token == []
  }

  /** Discovery carries no tokens: a row it finds loses its token, a row it does not find keeps it. */
  lemma {:induction false} TokenAfter(repos: map<string, RepoRow>, found: seq<Row<RepoRow>>, id: string)
    requires id in repos && Tokenless(found)
    ensures id in Discovered(repos, found) && SameRepo(Discovered(repos, found)[id], repos[id])
    ensures Discovered(repos, found)[id].token == if Finds(found, repos[id]) then [] else repos[id].token
    ensures !Finds(found, repos[id]) ==> Discovered(repos, found)[id] == repos[id]
  {
    if found != [] {
      var front, last := found[..|found| - 1], found[|found| - 1];
      assert Tokenless(front);
      TokenAfter(repos, front, id);
      UpsertRow(Discovered(repos, front), last, id);
      assert Finds(found, repos[id]) <==> Finds(front, repos[id]) || SameRepo(repos[id], last.value) by {
        if k :| 0 <= k < |front| && SameRepo(repos[id], front[k].value) {
          assert SameRepo(repos[id], found[k].value);
        }
        if k :| 0 <= k < |found| && SameRepo(repos[id], found[k].value) {
          assert k < |front| ==> SameRepo(repos[id], front[k].value);
        }
      }
    }
  }

  /** Running a report leaves every stored token as it was if and only if it discovers no repository
      that has one. */
  lemma TokensSurviveExactly(repos: map<string, RepoRow>, found: seq<Row<RepoRow>>)
    requires Tokenless(found)
    ensures (forall id :: id in repos ==> id in Discovered(repos, found) && Discovered(repos, found)[id].token == repos[id].token)
       <==> (forall id :: id in repos && repos[id].token != [] ==> !Finds(found, repos[id]))
  {
    forall id | id in repos
      ensures id in Discovered(repos, found)
      ensures Discovered(repos, found)[id].token == repos[id].token <==> (repos[id].token != [] ==> !Finds(found, repos[id]))
    {
      TokenAfter(repos, found, id);
    }
  }

  /** A stored token that is lost: a report discovers the repository it belongs to. */
  lemma TokenLost()
    ensures var row := RepoRow("api", "org/api", "https://github.com/org/api", "GITHUB", [0x67, 0x68, 0x70]);
            var found := [Row("77", row.(token := []))];
            && Tokenless(found) && row.token != [] && "r-api" in Discovered(map["r-api" := row], found)
            && Discovered(map["r-api" := row], found)["r-api"].token == []
  {
    var row := RepoRow("api", "org/api", "https://github.com/org/api", "GITHUB", [0x67, 0x68, 0x70]);
    var found := [Row("77", row.(token := []))];
    TokenAfter(map["r-api" := row], found, "r-api");
    assert SameRepo(row, found[0].value);
  }

  /** No discovery removes a row or breaks the uniqueness of names. */
  lemma {:induction false} DiscoveryKeeps(repos: map<string, RepoRow>, found: seq<Row<RepoRow>>)
    requires UniqueRepos(repos)
    ensures UniqueRepos(Discovered(repos, found)) && repos.Keys <= Discovered(repos, found).Keys
  {
    if found != [] {
      DiscoveryKeeps(repos, found[..|found| - 1]);
      UpsertUnique(Discovered(repos, found[..|found| - 1]), found[|found| - 1]);
    }
  }

  class PgxRepositoryStore {
    var repos: map<string, RepoRow>

    constructor (repos: map<string, RepoRow>)
      ensures this.repos == repos
    {
      this.repos := repos;
    }

    method Save(id: string, row: RepoRow) returns (ok: bool)
      requires UniqueRepos(repos)
      modifies this
      ensures ok <==> !NameTaken(old(repos) - {id}, row)
      ensures repos == if ok then old(repos)[id := row] else old(repos)
      ensures UniqueRepos(repos)
    {
      ok := forall r :: r in repos && SameRepo(repos[r], row) ==> r == id;
      if ok {
        repos := repos[id := row];
      }
      assert forall r :: r in old(repos) - {id} <==> r in old(repos) && r != id;
    }

    method Upsert(r: Row<RepoRow>) returns (ok: bool)
      requires UniqueRepos(repos)
      modifies this
      ensures repos == Upserted(old(repos), r) && UniqueRepos(repos)
      ensures ok <==> NameTaken(repos, r.value)
    {
      UpsertUnique(repos, r);
      if id :| id in repos && SameRepo(repos[id], r.value) {
        ghost var before := repos;
        repos := repos[id := repos[id].(name := r.value.name, url := r.value.url, token := r.value.token)];
        assert repos == Overwritten(before, r.value);
        return true;
      }
      ok := r.id !in repos;
      if ok {
        repos := repos[r.id := r.value];
      }
    }

    /** The loop of a report over what its fetcher discovered. */
    method UpsertAll(found: seq<Row<RepoRow>>)
      requires UniqueRepos(repos)
      modifies this
      ensures repos == Discovered(old(repos), found) && UniqueRepos(repos)
    {
      for i := 0 to |found|
        invariant repos == Discovered(old(repos), found[..i]) && UniqueRepos(repos)
      {
        var ok := Upsert(found[i]);
        assert found[..i + 1][..i] == found[..i];
      }
      assert found[..|found|] == found;
    }
  }
}
