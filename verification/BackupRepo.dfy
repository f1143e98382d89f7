/** The backup repository: `Export` reads the tables and codes the tokens in place, `Restore` clears
    and refills the tables row by row in one transaction. */
module BackupRepo {
  import opened Backup
  import opened Leadership
  import opened Seqs
  import opened Utf8

  // ----- Inserting rows under the constraints of a table

  /** No two rows clash and every row fits. */
  ghost predicate Fitting<V(!new)>(table: map<string, V>, clash: (V, V) -> bool, fits: V -> bool) {
    && (forall a, b :: a in table && b in table && clash(table[a], table[b]) ==> a == b)
    && forall a :: a in table ==> fits(table[a])
  }

  predicate RowFits<V>(table: map<string, V>, r: Row<V>, clash: (V, V) -> bool, fits: V -> bool) {
    r.id !in table && fits(r.value) && forall a :: a in table ==> !clash(table[a], r.value)
  }

  lemma Inserted<V(!new)>(rows: seq<Row<V>>, i: nat, clash: (V, V) -> bool, fits: V -> bool)
    requires i < |rows| && DistinctIDs(rows[..i]) && Fitting(TableOf(rows[..i]), clash, fits)
    requires forall v, w :: clash(v, w) <==> clash(w, v)
    requires RowFits(TableOf(rows[..i]), rows[i], clash, fits)
    ensures DistinctIDs(rows[..i + 1]) && Fitting(TableOf(rows[..i + 1]), clash, fits)
    ensures TableOf(rows[..i + 1]) == TableOf(rows[..i])[rows[i].id := rows[i].value]
  {
    assert rows[..i + 1] == rows[..i] + [rows[i]];
    TablePush(rows[..i], rows[i]);
    TableHas(rows[..i]);
    forall k | 0 <= k < i
      ensures rows[k].id != rows[i].id
    {
      assert rows[..i][k] == rows[k];
    }
  }

  lemma TablePrefix<V(!new)>(rows: seq<Row<V>>, i: nat, id: string)
    requires i <= |rows| && DistinctIDs(rows) && id in TableOf(rows[..i])
    ensures id in TableOf(rows) && TableOf(rows)[id] == TableOf(rows[..i])[id]
    ensures exists k :: 0 <= k < i && rows[k].id == id
  {
    TableHas(rows[..i]);
    TableHas(rows);
    var k :| 0 <= k < |rows[..i]| && rows[..i][k].id == id;
    assert rows[k].id == id;
  }

  /** One violation, at whatever row, and the whole list is not insertable. */
  lemma Refused<V(!new)>(rows: seq<Row<V>>, i: nat, clash: (V, V) -> bool, fits: V -> bool)
    requires i < |rows| && !RowFits(TableOf(rows[..i]), rows[i], clash, fits)
    ensures !(DistinctIDs(rows) && Fitting(TableOf(rows), clash, fits))
  {
    if DistinctIDs(rows) {
      TableHas(rows);
      var table := TableOf(rows[..i]);
      if rows[i].id in table {
        TablePrefix(rows, i, rows[i].id);
      } else if a :| a in table && clash(table[a], rows[i].value) {
        TablePrefix(rows, i, a);
        assert clash(TableOf(rows)[a], TableOf(rows)[rows[i].id]) && a != rows[i].id;
      }
    }
  }

  predicate SameUsername(a: UserEntry, b: UserEntry) {
    a.row.username == b.row.username
  }

  predicate SameAccountName(a: Account, b: Account) {
    a.username == b.username
  }

  predicate AccountFits(a: Account, users: map<string, UserRow>) {
    a.userID in users && a.roles != {}
  }

  predicate IdsFit(ids: seq<string>, known: set<string>) {
    NoRepeats(ids) && forall id :: id in ids ==> id in known
  }

  predicate TeamFits(t: TeamEntry, users: set<string>, repos: set<string>) {
    IdsFit(t.leaders, users) && IdsFit(t.members, users) && IdsFit(t.repos, repos)
  }

  function AnyUser(): UserEntry -> bool {
    e => true
  }

  function FittingAccount(users: map<string, UserRow>): Account -> bool {
    a => AccountFits(a, users)
  }

  function FittingRepo(text: seq<Byte> -> bool): RepoRow -> bool {
    r => text(Uncoded(r).token)
  }

  function FittingTeam(users: set<string>, repos: set<string>): TeamEntry -> bool {
    t => TeamFits(t, users, repos)
  }

  function NoClash(): (TeamEntry, TeamEntry) -> bool {
    (a, b) => false
  }

  /** The constraint checks of the insert statements, on the tables themselves. */
  lemma UserInsertable(entries: map<string, UserEntry>, r: Row<UserEntry>)
    ensures RowFits(entries, r, SameUsername, AnyUser())
       <==> && r.id !in UsersOf(entries)
            && !exists u :: u in UsersOf(entries) && UsersOf(entries)[u].username == r.value.row.username
    ensures forall k :: k in NamesOf(entries) ==> k.user in UsersOf(entries)
  {
    assert forall u :: u in entries ==>
             (SameUsername(entries[u], r.value) <==> UsersOf(entries)[u].username == r.value.row.username);
  }

  lemma RepoInsertable(coded: map<string, RepoRow>, r: Row<RepoRow>, text: seq<Byte> -> bool)
    ensures RowFits(coded, r, SameRepo, FittingRepo(text))
       <==> && r.id !in UncodedRepos(coded) && text(Uncoded(r.value).token)
            && !exists s :: s in UncodedRepos(coded) && SameRepo(UncodedRepos(coded)[s], Uncoded(r.value))
    ensures UncodedRepos(coded[r.id := r.value]) == UncodedRepos(coded)[r.id := Uncoded(r.value)]
  {
    var repos := UncodedRepos(coded);
    assert forall s :: s in coded ==> (SameRepo(repos[s], Uncoded(r.value)) <==> SameRepo(coded[s], r.value));
  }

  function UserKeys(user: string, platforms: map<string, string>): (keys: set<NameKey>)
    ensures forall k :: k in keys <==> k.user == user && k.platform in platforms
  {
    var keys := set p | p in platforms :: NameKey(user, p);
    assert forall k :: k in keys <==> k.user == user && k.platform in platforms by {
      forall k: NameKey | k.user == user && k.platform in platforms
        ensures k in keys
      {
        assert k == NameKey(user, k.platform);
      }
    }
    keys
  }

  /** The names of one more user. */
  function WithNames(names: map<NameKey, string>, user: string, platforms: map<string, string>): map<NameKey, string> {
    names + map k | k in UserKeys(user, platforms) :: platforms[k.platform]
  }

  lemma InNames(entries: map<string, UserEntry>, k: NameKey)
    ensures k in NamesOf(entries) <==> k.user in entries && k.platform in entries[k.user].platforms
    ensures k in NamesOf(entries) ==> NamesOf(entries)[k] == entries[k.user].platforms[k.platform]
  {
    if k.user in entries && k.platform in entries[k.user].platforms {
      assert NameKey(k.user, k.platform) in NameKeys(entries);
    }
  }

  lemma InWithNames(names: map<NameKey, string>, user: string, platforms: map<string, string>, k: NameKey)
    ensures k in WithNames(names, user, platforms) <==> k in names || (k.user == user && k.platform in platforms)
    ensures k in WithNames(names, user, platforms) ==>
              var added := k.user == user && k.platform in platforms;
              WithNames(names, user, platforms)[k] == if added then platforms[k.platform] else names[k]
  {
  }

  lemma NamePush(entries: map<string, UserEntry>, id: string, e: UserEntry, k: NameKey)
    requires id !in entries
    ensures k in NamesOf(entries[id := e]) <==> k in WithNames(NamesOf(entries), id, e.platforms)
    ensures k in NamesOf(entries[id := e]) ==> NamesOf(entries[id := e])[k] == WithNames(NamesOf(entries), id, e.platforms)[k]
  {
    InNames(entries[id := e], k);
    InNames(entries, k);
    InWithNames(NamesOf(entries), id, e.platforms, k);
  }

  lemma SameMap<K, V>(m: map<K, V>, n: map<K, V>)
    requires forall k :: k in m <==> k in n
    requires forall k :: k in m ==> m[k] == n[k]
    ensures m == n
  {
  }

  lemma NamesPush(entries: map<string, UserEntry>, id: string, e: UserEntry)
    requires id !in entries
    ensures NamesOf(entries[id := e]) == WithNames(NamesOf(entries), id, e.platforms)
  {
    forall k
      ensures k in NamesOf(entries[id := e]) <==> k in WithNames(NamesOf(entries), id, e.platforms)
      ensures k in NamesOf(entries[id := e]) ==> NamesOf(entries[id := e])[k] == WithNames(NamesOf(entries), id, e.platforms)[k]
    {
      NamePush(entries, id, e, k);
    }
    SameMap(NamesOf(entries[id := e]), WithNames(NamesOf(entries), id, e.platforms));
  }

  lemma UsersPush(entries: map<string, UserEntry>, id: string, e: UserEntry)
    ensures UsersOf(entries[id := e]) == UsersOf(entries)[id := e.row]
  {
  }

  lemma PairsPush(entries: map<string, TeamEntry>, id: string, t: TeamEntry, ids: TeamEntry -> seq<string>)
    requires id !in entries
    ensures PairsOf(entries[id := t], ids) == PairsOf(entries, ids) + set u | u in ids(t) :: Pair(id, u)
    ensures forall p :: p in PairsOf(entries, ids) ==> p.team != id
  {
  }

  /** Foreign keys of one relation, seen from the lists in the file. */
  lemma PairsReferFit(entries: map<string, TeamEntry>, ids: TeamEntry -> seq<string>, known: set<string>)
    ensures (forall id, u :: id in entries && u in ids(entries[id]) ==> u in known)
        <==> forall p :: p in PairsOf(entries, ids) ==> p.team in TeamNames(entries) && p.user in known
  {
    if forall p :: p in PairsOf(entries, ids) ==> p.team in TeamNames(entries) && p.user in known {
      forall id, u | id in entries && u in ids(entries[id])
        ensures u in known
      {
        assert Pair(id, u) in PairsOf(entries, ids);
      }
    }
  }

  // ----- The constraints of the single tables make up the constraints of them all

  lemma UsersFit(entries: map<string, UserEntry>)
    ensures Fitting(entries, SameUsername, AnyUser()) <==> UniqueUsernames(UsersOf(entries))
  {
    var users := UsersOf(entries);
    assert forall a, b :: a in entries && b in entries ==>
             (SameUsername(entries[a], entries[b]) <==> users[a].username == users[b].username);
  }

  lemma NamesFit(entries: map<string, UserEntry>)
    ensures NamesRefer(NamesOf(entries), UsersOf(entries))
  {
    forall k | k in NamesOf(entries)
      ensures k.user in UsersOf(entries)
    {
      InNames(entries, k);
    }
  }

  lemma AccountsFit(accounts: map<string, Account>, users: map<string, UserRow>)
    ensures Fitting(accounts, SameAccountName, FittingAccount(users))
       <==> UniqueAccountNames(accounts) && AccountsReferToUsers(accounts, users) && EveryoneHasARole(accounts)
  {
    assert forall a :: a in accounts ==>
             (FittingAccount(users)(accounts[a]) <==> accounts[a].userID in users && accounts[a].roles != {});
  }

  lemma ReposFit(coded: map<string, RepoRow>, text: seq<Byte> -> bool)
    ensures Fitting(coded, SameRepo, FittingRepo(text))
       <==> UniqueRepos(UncodedRepos(coded)) && TokensAreText(UncodedRepos(coded), text)
  {
    ReposUnique(coded);
    assert TokensAreText(UncodedRepos(coded), text) <==> forall a :: a in coded ==> FittingRepo(text)(coded[a]) by {
      forall a | a in coded
        ensures FittingRepo(text)(coded[a]) <==> text(UncodedRepos(coded)[a].token)
      {
      }
    }
  }

  lemma ReposUnique(coded: map<string, RepoRow>)
    ensures UniqueRepos(UncodedRepos(coded))
       <==> forall a, b :: a in coded && b in coded && SameRepo(coded[a], coded[b]) ==> a == b
  {
    var repos := UncodedRepos(coded);
    assert forall a, b :: a in coded && b in coded ==> (SameRepo(coded[a], coded[b]) <==> SameRepo(repos[a], repos[b]));
  }

  ghost predicate NoneRepeats(entries: map<string, TeamEntry>) {
    forall id :: id in entries ==> TeamHasNoRepeats(entries[id])
  }

  lemma OneTeamFits(t: TeamEntry, users: set<string>, repos: set<string>)
    ensures TeamFits(t, users, repos)
       <==> && TeamHasNoRepeats(t) && (forall u :: u in t.leaders ==> u in users)
            && (forall u :: u in t.members ==> u in users) && (forall r :: r in t.repos ==> r in repos)
  {
  }

  ghost predicate AllKnown(entries: map<string, TeamEntry>, ids: TeamEntry -> seq<string>, known: set<string>) {
    forall id, u :: id in entries && u in ids(entries[id]) ==> u in known
  }

  lemma TeamsFit(entries: map<string, TeamEntry>, users: set<string>, repos: set<string>)
    ensures Fitting(entries, NoClash(), FittingTeam(users, repos))
       <==> && NoneRepeats(entries) && AllKnown(entries, Leaders(), users)
            && AllKnown(entries, Members(), users) && AllKnown(entries, Repos(), repos)
  {
    forall id | id in entries
      ensures FittingTeam(users, repos)(entries[id])
         <==> && TeamHasNoRepeats(entries[id]) && (forall u :: u in Leaders()(entries[id]) ==> u in users)
              && (forall u :: u in Members()(entries[id]) ==> u in users)
              && (forall r :: r in Repos()(entries[id]) ==> r in repos)
    {
      OneTeamFits(entries[id], users, repos);
    }
  }

  lemma RowsRepeat(rows: seq<Row<TeamEntry>>)
    requires DistinctIDs(rows)
    ensures NoneRepeats(TableOf(rows)) <==> forall k :: 0 <= k < |rows| ==> TeamHasNoRepeats(rows[k].value)
  {
    TableHas(rows);
    if forall k :: 0 <= k < |rows| ==> TeamHasNoRepeats(rows[k].value) {
      forall id | id in TableOf(rows)
        ensures TeamHasNoRepeats(TableOf(rows)[id])
      {
        var k :| 0 <= k < |rows| && rows[k].id == id;
      }
    } else {
      var k :| 0 <= k < |rows| && !TeamHasNoRepeats(rows[k].value);
      assert TableOf(rows)[rows[k].id] == rows[k].value;
    }
  }

  lemma TeamRowsFit(rows: seq<Row<TeamEntry>>, users: map<string, UserRow>, repos: map<string, RepoRow>)
    requires DistinctIDs(rows)
    ensures Fitting(TableOf(rows), NoClash(), FittingTeam(users.Keys, repos.Keys))
       <==> && (forall k :: 0 <= k < |rows| ==> TeamHasNoRepeats(rows[k].value))
            && PairsRefer(PairsOf(TableOf(rows), Members()), TeamNames(TableOf(rows)), users)
            && PairsRefer(PairsOf(TableOf(rows), Leaders()), TeamNames(TableOf(rows)), users)
            && TeamReposRefer(PairsOf(TableOf(rows), Repos()), TeamNames(TableOf(rows)), repos)
  {
    var entries := TableOf(rows);
    RowsRepeat(rows);
    TeamsFit(entries, users.Keys, repos.Keys);
    PairsReferFit(entries, Leaders(), users.Keys);
    PairsReferFit(entries, Members(), users.Keys);
    PairsReferFit(entries, Repos(), repos.Keys);
  }

  /** What the insert statements of a restore check, table by table, is what makes a file acceptable. */
  ghost predicate Inserts(file: BackupFile, text: seq<Byte> -> bool) {
    var users, repos := UsersOf(TableOf(file.users)), UncodedRepos(TableOf(file.repos));
    && DistinctIDs(file.users) && Fitting(TableOf(file.users), SameUsername, AnyUser())
    && DistinctIDs(file.accounts) && Fitting(TableOf(file.accounts), SameAccountName, FittingAccount(users))
    && DistinctIDs(file.repos) && Fitting(TableOf(file.repos), SameRepo, FittingRepo(text))
    && DistinctIDs(file.teams) && Fitting(TableOf(file.teams), NoClash(), FittingTeam(users.Keys, repos.Keys))
  }

  /** The same, constraint by constraint. */
  ghost predicate Checked(file: BackupFile, text: seq<Byte> -> bool) {
    var t := Restored(file);
    && DistinctIDs(file.users) && UniqueUsernames(t.core.users)
    && DistinctIDs(file.accounts) && UniqueAccountNames(t.core.accounts)
    && AccountsReferToUsers(t.core.accounts, t.core.users) && EveryoneHasARole(t.core.accounts)
    && DistinctIDs(file.repos) && UniqueRepos(t.repos) && TokensAreText(t.repos, text)
    && DistinctIDs(file.teams) && (forall k :: 0 <= k < |file.teams| ==> TeamHasNoRepeats(file.teams[k].value))
    && PairsRefer(t.core.members, t.core.teams, t.core.users) && PairsRefer(t.core.leaders, t.core.teams, t.core.users)
    && TeamReposRefer(t.teamRepos, t.core.teams, t.repos)
  }

  lemma InsertsChecked(file: BackupFile, text: seq<Byte> -> bool)
    ensures Inserts(file, text) <==> Checked(file, text)
  {
    var users, repos := UsersOf(TableOf(file.users)), UncodedRepos(TableOf(file.repos));
    UsersFit(TableOf(file.users));
    AccountsFit(TableOf(file.accounts), users);
    ReposFit(TableOf(file.repos), text);
    if DistinctIDs(file.teams) {
      TeamRowsFit(file.teams, users, repos);
    }
  }

  lemma CheckedExactly(file: BackupFile, text: seq<Byte> -> bool)
    ensures Checked(file, text) <==> Acceptable(file, text)
  {
    NamesFit(TableOf(file.users));
  }

  lemma InsertsExactly(file: BackupFile, text: seq<Byte> -> bool)
    ensures Inserts(file, text) == Acceptable(file, text)
  {
    InsertsChecked(file, text);
    CheckedExactly(file, text);
  }

  ghost predicate IsTeamRow(listed: Row<TeamEntry>, row: Row<string>,
                            leaders: set<Pair>, members: set<Pair>, teamRepos: set<Pair>) {
    && listed.id == row.id && listed.value.name == row.value && ListsPairs(listed.value.leaders, leaders, row.id)
    && ListsPairs(listed.value.members, members, row.id) && ListsPairs(listed.value.repos, teamRepos, row.id)
  }

  lemma SameIDs(teams: map<string, string>, ids: seq<Row<string>>, rows: seq<Row<TeamEntry>>)
    requires Lists(ids, teams) && |rows| == |ids| && forall k :: 0 <= k < |rows| ==> rows[k].id == ids[k].id
    ensures DistinctIDs(rows) && forall id :: id in TableOf(rows) <==> id in teams
  {
    TableHas(rows);
    assert forall k :: 0 <= k < |ids| ==> ids[k] in ids;
    forall id | id in teams
      ensures id in TableOf(rows)
    {
      var k :| 0 <= k < |ids| && ids[k] == Row(id, teams[id]);
      assert rows[k].id == id;
    }
  }

  lemma TeamRowsMake(teams: map<string, string>, ids: seq<Row<string>>, rows: seq<Row<TeamEntry>>,
                     leaders: set<Pair>, members: set<Pair>, teamRepos: set<Pair>)
    requires Lists(ids, teams) && |rows| == |ids|
    requires forall k :: 0 <= k < |rows| ==> IsTeamRow(rows[k], ids[k], leaders, members, teamRepos)
    ensures DistinctIDs(rows) && TableOf(rows).Keys == teams.Keys
    ensures forall id :: id in TableOf(rows) ==>
              IsTeamRow(Row(id, TableOf(rows)[id]), Row(id, teams[id]), leaders, members, teamRepos)
  {
    SameIDs(teams, ids, rows);
    TableHas(rows);
    forall id | id in TableOf(rows)
      ensures IsTeamRow(Row(id, TableOf(rows)[id]), Row(id, teams[id]), leaders, members, teamRepos)
    {
      var k :| 0 <= k < |rows| && rows[k].id == id;
      assert ids[k] in ids;
    }
  }

  method ListRows<V(==,!new)>(table: map<string, V>) returns (rows: seq<Row<V>>)
    ensures Lists(rows, table)
  {
    rows := [];
    var left := table.Keys;
    while left != {}
      invariant left <= table.Keys && DistinctIDs(rows)
      invariant forall r: Row<V> :: r in rows <==> r.id in table && r.id !in left && table[r.id] == r.value
      decreases left
    {
      var id :| id in left;
      assert forall k :: 0 <= k < |rows| ==> rows[k] in rows;
      rows := rows + [Row(id, table[id])];
      left := left - {id};
    }
  }

  method ListIDs(relation: set<Pair>, team: string) returns (ids: seq<string>)
    ensures ListsPairs(ids, relation, team)
  {
    ids := [];
    var left := set p | p in relation && p.team == team;
    while left != {}
      invariant left <= relation && NoRepeats(ids) && forall p :: p in left ==> p.team == team
      invariant forall id :: id in ids <==> Pair(team, id) in relation && Pair(team, id) !in left
      decreases left
    {
      var p :| p in left;
      assert p == Pair(team, p.user);
      ids := ids + [p.user];
      left := left - {p};
    }
  }

  class PgxBackupRepo {
    var users: map<string, UserRow>
    var platformNames: map<NameKey, string>
    var accounts: map<string, Account>
    var repos: map<string, RepoRow>
    var teams: map<string, string>
    var leaders: set<Pair>
    var members: set<Pair>
    var teamRepos: set<Pair>
    var config: map<string, string>

    /** Which byte strings the database takes as text. */
    const text: seq<Byte> -> bool

    ghost function Snapshot(): Tables
      reads this
    {
      Tables(Db(users, accounts, teams, members, leaders), platformNames, repos, teamRepos, config)
    }

    constructor (t: Tables, text: seq<Byte> -> bool)
      ensures Snapshot() == t && this.text == text
    {
      users, accounts, teams, members, leaders := t.core.users, t.core.accounts, t.core.teams, t.core.members, t.core.leaders;
      platformNames, repos, teamRepos, config := t.platformNames, t.repos, t.teamRepos, t.config;
      this.text := text;
    }

    // ----- Export

    static method ListTeam(row: Row<string>, leaders: set<Pair>, members: set<Pair>, teamRepos: set<Pair>)
      returns (listed: Row<TeamEntry>)
      ensures IsTeamRow(listed, row, leaders, members, teamRepos)
    {
      var teamLeaders := ListIDs(leaders, row.id);
      var teamMembers := ListIDs(members, row.id);
      var repoIDs := ListIDs(teamRepos, row.id);
      listed := Row(row.id, TeamEntry(row.value, teamLeaders, teamMembers, repoIDs));
    }

    static method ListTeams(teams: map<string, string>, leaders: set<Pair>, members: set<Pair>, teamRepos: set<Pair>)
      returns (rows: seq<Row<TeamEntry>>)
      ensures DistinctIDs(rows) && TableOf(rows).Keys == teams.Keys
      ensures forall id :: id in TableOf(rows) ==>
                var t := TableOf(rows)[id];
                t.name == teams[id] && ListsPairs(t.leaders, leaders, id) && ListsPairs(t.members, members, id)
                && ListsPairs(t.repos, teamRepos, id)
    {
      var ids := ListRows(teams);
      rows := [];
      for i := 0 to |ids|
        invariant |rows| == i
        invariant forall k :: 0 <= k < i ==> IsTeamRow(rows[k], ids[k], leaders, members, teamRepos)
      {
        var row := ListTeam(ids[i], leaders, members, teamRepos);
        rows := rows + [row];
      }
      TeamRowsMake(teams, ids, rows, leaders, members, teamRepos);
    }

    /** The loop that codes the tokens, in place. */
    static method CodeTokens(listed: seq<Row<RepoRow>>, table: map<string, RepoRow>) returns (repos: seq<Row<RepoRow>>)
      requires Lists(listed, table)
      ensures Lists(repos, CodedRepos(table))
    {
      repos := listed;
      for i := 0 to |repos|
        invariant |repos| == |listed|
        invariant forall k :: 0 <= k < i ==> repos[k] == Row(listed[k].id, Coded(listed[k].value))
        invariant forall k :: i <= k < |listed| ==> repos[k] == listed[k]
      {
        if repos[i].value.token != [] {
          repos := repos[i := Row(repos[i].id, repos[i].value.(token := Base64.Encode(repos[i].value.token)))];
        }
      }
      assert forall k :: 0 <= k < |listed| ==> listed[k] in listed;
      forall r: Row<RepoRow>
        ensures r in repos <==> r.id in CodedRepos(table) && CodedRepos(table)[r.id] == r.value
      {
        if r.id in table && Coded(table[r.id]) == r.value {
          var k :| 0 <= k < |listed| && listed[k] == Row(r.id, table[r.id]);
          assert repos[k] == r;
        }
      }
    }

    method Export() returns (file: BackupFile)
      ensures IsExport(file, Snapshot())
    {
      var tables := Tables(Db(users, accounts, teams, members, leaders), platformNames, repos, teamRepos, config);
      var userRows := ListRows(UserEntries(tables));
      var accountRows := ListRows(accounts);
      var teamRows := ListTeams(teams, leaders, members, teamRepos);
      var repoRows := ListRows(repos);
      repoRows := CodeTokens(repoRows, repos);
      file := BackupFile(userRows, accountRows, teamRows, repoRows, config);
      assert forall id :: id in TableOf(teamRows) ==> TeamListed(id, TableOf(teamRows)[id], tables);
    }

    // ----- Restore

    static method InsertNames(before: map<NameKey, string>, user: string, platforms: map<string, string>)
      returns (ok: bool, names: map<NameKey, string>)
      ensures ok <==> forall p :: p in platforms ==> NameKey(user, p) !in before
      ensures ok ==> names == WithNames(before, user, platforms)
    {
      names := before;
      var left := platforms.Keys;
      while left != {}
        invariant left <= platforms.Keys
        invariant forall p :: p in platforms && p !in left ==> NameKey(user, p) !in before
        invariant forall k :: k in names <==> k in before || (k.user == user && k.platform in platforms && k.platform !in left)
        invariant forall k :: k in names ==> names[k] == if k in before then before[k] else platforms[k.platform]
        decreases left
      {
        var p :| p in left;
        if NameKey(user, p) in names {
          return false, before;
        }
        names := names[NameKey(user, p) := platforms[p]];
        left := left - {p};
      }
      ok := true;
      forall k
        ensures k in names <==> k in WithNames(before, user, platforms)
      {
        if k.user == user && k.platform in platforms {
          assert k == NameKey(user, k.platform);
        }
      }
    }

    /** The two tables hold what the users read so far put there, and no insert has failed. */
    static ghost predicate UsersFilled(rows: seq<Row<UserEntry>>, users: map<string, UserRow>, names: map<NameKey, string>) {
      && DistinctIDs(rows) && Fitting(TableOf(rows), SameUsername, AnyUser())
      && users == UsersOf(TableOf(rows)) && names == NamesOf(TableOf(rows))
    }

    static lemma NoUsersFilled()
      ensures UsersFilled([], map[], map[])
    {
    }

    static lemma AllUsersFilled(rows: seq<Row<UserEntry>>, users: map<string, UserRow>, names: map<NameKey, string>)
      requires UsersFilled(rows[..|rows|], users, names)
      ensures DistinctIDs(rows) && Fitting(TableOf(rows), SameUsername, AnyUser())
      ensures users == UsersOf(TableOf(rows)) && names == NamesOf(TableOf(rows))
    {
      assert rows[..|rows|] == rows;
    }

    static lemma UserRefused(rows: seq<Row<UserEntry>>, i: nat, users: map<string, UserRow>)
      requires i < |rows| && users == UsersOf(TableOf(rows[..i]))
      requires rows[i].id in users || exists u :: u in users && users[u].username == rows[i].value.row.username
      ensures !(DistinctIDs(rows) && Fitting(TableOf(rows), SameUsername, AnyUser()))
    {
      UserInsertable(TableOf(rows[..i]), rows[i]);
      Refused(rows, i, SameUsername, AnyUser());
    }

    static lemma UserFilled(rows: seq<Row<UserEntry>>, i: nat, users: map<string, UserRow>, names: map<NameKey, string>)
      requires i < |rows| && UsersFilled(rows[..i], users, names)
      requires rows[i].id !in users && !exists u :: u in users && users[u].username == rows[i].value.row.username
      ensures UsersFilled(rows[..i + 1], users[rows[i].id := rows[i].value.row],
                          WithNames(names, rows[i].id, rows[i].value.platforms))
      ensures forall k :: k in names ==> k.user != rows[i].id
    {
      var entries := TableOf(rows[..i]);
      UserInsertable(entries, rows[i]);
      Inserted(rows, i, SameUsername, AnyUser());
      NamesPush(entries, rows[i].id, rows[i].value);
      UsersPush(entries, rows[i].id, rows[i].value);
    }

    /** One user and the platform usernames that come with it. */
    static method InsertUser(ghost rows: seq<Row<UserEntry>>, ghost i: nat, r: Row<UserEntry>,
                             users0: map<string, UserRow>, names0: map<NameKey, string>)
      returns (ok: bool, users: map<string, UserRow>, names: map<NameKey, string>)
      requires i < |rows| && r == rows[i] && UsersFilled(rows[..i], users0, names0)
      ensures ok ==> UsersFilled(rows[..i + 1], users, names)
      ensures !ok ==> !(DistinctIDs(rows) && Fitting(TableOf(rows), SameUsername, AnyUser()))
    {
      users, names := users0, names0;
      if r.id in users || exists u :: u in users && users[u].username == r.value.row.username {
        UserRefused(rows, i, users);
        return false, users, names;
      }
      UserFilled(rows, i, users, names);
      users := users[r.id := r.value.row];
      ok, names := InsertNames(names, r.id, r.value.platforms);
    }

    static method InsertUsers(rows: seq<Row<UserEntry>>)
      returns (ok: bool, users: map<string, UserRow>, names: map<NameKey, string>)
      ensures ok <==> DistinctIDs(rows) && Fitting(TableOf(rows), SameUsername, AnyUser())
      ensures ok ==> users == UsersOf(TableOf(rows)) && names == NamesOf(TableOf(rows))
    {
      NoUsersFilled();
      users, names := map[], map[];
      for i := 0 to |rows|
        invariant UsersFilled(rows[..i], users, names)
      {
        ok, users, names := InsertUser(rows, i, rows[i], users, names);
        if !ok {
          return;
        }
      }
      AllUsersFilled(rows, users, names);
      ok := true;
    }

    static method InsertAccounts(rows: seq<Row<Account>>, users: map<string, UserRow>)
      returns (ok: bool, accounts: map<string, Account>)
      ensures ok <==> DistinctIDs(rows) && Fitting(TableOf(rows), SameAccountName, FittingAccount(users))
      ensures ok ==> accounts == TableOf(rows)
    {
      accounts := map[];
      for i := 0 to |rows|
        invariant DistinctIDs(rows[..i]) && Fitting(TableOf(rows[..i]), SameAccountName, FittingAccount(users))
        invariant accounts == TableOf(rows[..i])
      {
        var a := rows[i].value;
        if rows[i].id in accounts || !AccountFits(a, users) || exists b :: b in accounts && accounts[b].username == a.username {
          Refused(rows, i, SameAccountName, FittingAccount(users));
          return false, accounts;
        }
        Inserted(rows, i, SameAccountName, FittingAccount(users));
        accounts := accounts[rows[i].id := a];
      }
      assert rows[..|rows|] == rows;
      ok := true;
    }

    static method InsertRepos(rows: seq<Row<RepoRow>>, text: seq<Byte> -> bool)
      returns (ok: bool, repos: map<string, RepoRow>)
      ensures ok <==> DistinctIDs(rows) && Fitting(TableOf(rows), SameRepo, FittingRepo(text))
      ensures ok ==> repos == UncodedRepos(TableOf(rows))
    {
      repos := map[];
      for i := 0 to |rows|
        invariant DistinctIDs(rows[..i]) && Fitting(TableOf(rows[..i]), SameRepo, FittingRepo(text))
        invariant repos == UncodedRepos(TableOf(rows[..i]))
      {
        var row := rows[i].value;
        if row.token != [] {
          var decoded := Base64.Decode(row.token);
          if decoded.Some? {
            row := row.(token := decoded.value);
          }
        }
        assert row == Uncoded(rows[i].value);
        RepoInsertable(TableOf(rows[..i]), rows[i], text);
        if rows[i].id in repos || !text(row.token) || exists r :: r in repos && SameRepo(repos[r], row) {
          Refused(rows, i, SameRepo, FittingRepo(text));
          return false, repos;
        }
        Inserted(rows, i, SameRepo, FittingRepo(text));
        repos := repos[rows[i].id := row];
      }
      assert rows[..|rows|] == rows;
      ok := true;
    }

    static method InsertPairs(before: set<Pair>, team: string, ids: seq<string>, known: set<string>)
      returns (ok: bool, relation: set<Pair>)
      requires forall p :: p in before ==> p.team != team
      ensures ok <==> IdsFit(ids, known)
      ensures ok ==> relation == before + set u | u in ids :: Pair(team, u)
    {
      relation := before;
      for i := 0 to |ids|
        invariant IdsFit(ids[..i], known)
        invariant relation == before + set u | u in ids[..i] :: Pair(team, u)
      {
        if Pair(team, ids[i]) in relation || ids[i] !in known {
          assert !IdsFit(ids, known) by {
            if ids[i] in known {
              var k :| 0 <= k < i && ids[k] == ids[i];
            }
          }
          return false, before;
        }
        relation := relation + {Pair(team, ids[i])};
        assert ids[..i + 1] == ids[..i] + [ids[i]];
        assert ids[i] !in ids[..i];
      }
      assert ids[..|ids|] == ids;
      ok := true;
    }

    /** The four tables hold what the teams read so far put there. */
    static ghost predicate Filled(entries: map<string, TeamEntry>, teams: map<string, string>, leaders: set<Pair>,
                                  members: set<Pair>, teamRepos: set<Pair>) {
      && teams == TeamNames(entries) && leaders == PairsOf(entries, Leaders())
      && members == PairsOf(entries, Members()) && teamRepos == PairsOf(entries, Repos())
    }

    static method InsertTeam(ghost entries: map<string, TeamEntry>, id: string, t: TeamEntry,
                             users: set<string>, repos: set<string>,
                             teams0: map<string, string>, leaders0: set<Pair>, members0: set<Pair>, teamRepos0: set<Pair>)
      returns (ok: bool, teams: map<string, string>, leaders: set<Pair>, members: set<Pair>, teamRepos: set<Pair>)
      requires id !in entries && Filled(entries, teams0, leaders0, members0, teamRepos0)
      ensures ok <==> TeamFits(t, users, repos)
      ensures ok ==> Filled(entries[id := t], teams, leaders, members, teamRepos)
    {
      PairsPush(entries, id, t, Leaders());
      PairsPush(entries, id, t, Members());
      PairsPush(entries, id, t, Repos());
      teams, leaders, members, teamRepos := teams0[id := t.name], leaders0, members0, teamRepos0;
      ok, leaders := InsertPairs(leaders, id, t.leaders, users);
      if ok {
        ok, members := InsertPairs(members, id, t.members, users);
      }
      if ok {
        ok, teamRepos := InsertPairs(teamRepos, id, t.repos, repos);
      }
    }

    static method InsertTeams(rows: seq<Row<TeamEntry>>, users: set<string>, repos: set<string>)
      returns (ok: bool, teams: map<string, string>, leaders: set<Pair>, members: set<Pair>, teamRepos: set<Pair>)
      ensures ok <==> DistinctIDs(rows) && Fitting(TableOf(rows), NoClash(), FittingTeam(users, repos))
      ensures ok ==> Filled(TableOf(rows), teams, leaders, members, teamRepos)
    {
      teams, leaders, members, teamRepos := map[], {}, {}, {};
      for i := 0 to |rows|
        invariant DistinctIDs(rows[..i]) && Fitting(TableOf(rows[..i]), NoClash(), FittingTeam(users, repos))
        invariant Filled(TableOf(rows[..i]), teams, leaders, members, teamRepos)
      {
        ok := rows[i].id !in teams;
        if ok {
          ok, teams, leaders, members, teamRepos :=
            InsertTeam(TableOf(rows[..i]), rows[i].id, rows[i].value, users, repos, teams, leaders, members, teamRepos);
        }
        if !ok {
          Refused(rows, i, NoClash(), FittingTeam(users, repos));
          return;
        }
        Inserted(rows, i, NoClash(), FittingTeam(users, repos));
      }
      assert rows[..|rows|] == rows;
      ok := true;
    }

    static method Refill(file: BackupFile, text: seq<Byte> -> bool) returns (ok: bool, t: Tables)
      ensures ok <==> Inserts(file, text)
      ensures ok ==> t == Restored(file)
    {
      var users, names, accounts, repos, teams, leaders, members, teamRepos;
      t := Tables(Db(map[], map[], map[], {}, {}), map[], map[], {}, map[]);
      ok, users, names := InsertUsers(file.users);
      if ok {
        ok, accounts := InsertAccounts(file.accounts, users);
      }
      if ok {
        ok, repos := InsertRepos(file.repos, text);
      }
      if ok {
        ok, teams, leaders, members, teamRepos := InsertTeams(file.teams, users.Keys, repos.Keys);
      }
      if ok {
        t := Tables(Db(users, accounts, teams, members, leaders), names, repos, teamRepos, file.config);
      }
    }

    static method RefillExactly(file: BackupFile, text: seq<Byte> -> bool) returns (ok: bool, t: Tables)
      ensures ok == Acceptable(file, text)
      ensures ok ==> t == Restored(file)
    {
      ok, t := Refill(file, text);
      InsertsExactly(file, text);
    }

    method Commit(t: Tables)
      modifies this
      ensures Snapshot() == t
    {
      users, accounts, teams, members, leaders := t.core.users, t.core.accounts, t.core.teams, t.core.members, t.core.leaders;
      platformNames, repos, teamRepos, config := t.platformNames, t.repos, t.teamRepos, t.config;
    }

    /** Clears and refills the tables in one transaction: all of it happens, or nothing. */
    method Restore(file: BackupFile) returns (ok: bool)
      modifies this
      ensures ok == Acceptable(file, text)
      ensures Snapshot() == if ok then Restored(file) else old(Snapshot())
    {
      var t: Tables;
      ok, t := RefillExactly(file, text);
      if ok {
        Commit(t);
      }
    }
  }
}
