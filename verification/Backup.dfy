/** Backup files: what an export of the tables holds, which files a restore accepts, and the round
    trip between them. */
module Backup {
  import opened Base64
  import opened Leadership
  import opened Seqs
  import opened Utf8

  // ----- The nine tables

  /** The token is a byte string, as Go has it. */
  datatype RepoRow = RepoRow(name: string, fullName: string, url: string, platform: string, token: seq<Byte>)

  /** Users, accounts, teams, members and leaders are in `core`. */
  datatype Tables = Tables(core: Db, platformNames: map<NameKey, string>, repos: map<string, RepoRow>,
                           teamRepos: set<Pair>, config: map<string, string>)

  ghost predicate NamesRefer(names: map<NameKey, string>, users: map<string, UserRow>) {
    forall k :: k in names ==> k.user in users
  }

  predicate SameRepo(r: RepoRow, s: RepoRow) {
    r.fullName == s.fullName && r.platform == s.platform
  }

  ghost predicate UniqueRepos(repos: map<string, RepoRow>) {
    forall r, s :: r in repos && s in repos && SameRepo(repos[r], repos[s]) ==> r == s
  }

  /** What PostgreSQL takes as text. */
  ghost predicate TokensAreText(repos: map<string, RepoRow>, text: seq<Byte> -> bool) {
    forall r :: r in repos ==> text(repos[r].token)
  }

  ghost predicate TeamReposRefer(pairs: set<Pair>, teams: map<string, string>, repos: map<string, RepoRow>) {
    forall p :: p in pairs ==> p.team in teams && p.user in repos
  }

  /** Every constraint of the schema. In a pair of the team_repositories table the second part is a
      repository. */
  ghost predicate Constrained(t: Tables, text: seq<Byte> -> bool) {
    && Leadership.Schema(t.core) && NamesRefer(t.platformNames, t.core.users) && UniqueRepos(t.repos)
    && TokensAreText(t.repos, text) && TeamReposRefer(t.teamRepos, t.core.teams, t.repos)
  }

  // ----- The backup file

  datatype Row<V> = Row(id: string, value: V)

  datatype UserEntry = UserEntry(row: UserRow, platforms: map<string, string>)

  datatype TeamEntry = TeamEntry(name: string, leaders: seq<string>, members: seq<string>, repos: seq<string>)

  datatype BackupFile = BackupFile(users: seq<Row<UserEntry>>, accounts: seq<Row<Account>>, teams: seq<Row<TeamEntry>>,
                                   repos: seq<Row<RepoRow>>, config: map<string, string>)

  function Coded(r: RepoRow): RepoRow {
    if r.token == [] then r else r.(token := Base64.Encode(r.token))
  }

  /** A token that does not decode is kept as it is. */
  function Uncoded(r: RepoRow): RepoRow {
    if r.token == [] then r
    else
      match Base64.Decode(r.token)
      case Some(token) => r.(token := token)
      case None => r
  }

  /** An exported token is never kept as it is, and an empty one stays empty. */
  lemma CodedBack(r: RepoRow)
    ensures Uncoded(Coded(r)) == r
    ensures r.token != [] ==> Base64.Decode(Coded(r).token) == Some(r.token)
    ensures Coded(r).token == [] <==> r.token == []
  {
    Base64.RoundTrip(r.token);
    Base64.EncodedLength(r.token);
  }

  lemma PlainGroup()
    ensures Base64.Ungroup(97, 98, 99, 100) == Some([0x69, 0xB7, 0x1D])
  {
  }

  lemma NoLineBreak(text: seq<Byte>)
    requires forall b :: b in text ==> !LineBreak(b)
    ensures Base64.Decode(text) == Base64.DecodeDigits(text)
  {
    FilterAll(text, b => !LineBreak(b));
  }

  /** A token in a file is stored as it stands if and only if it is empty or no well-formed code; any
      other is decoded, which always changes it. */
  lemma KeptExactly(r: RepoRow)
    ensures Uncoded(r).token == r.token
       <==> r.token == [] || !Base64.WellFormed(Base64.WithoutBreaks(r.token))
  {
    if r.token != [] {
      Base64.DecodesExactly(r.token);
      if Base64.Decode(r.token).Some? {
        Base64.DecodedShorter(r.token);
      }
    }
  }

  /** A token that was written into the file by hand may be changed: this one happens to decode. */
  lemma PlainTokenMisread()
    ensures Uncoded(RepoRow("r", "org/r", "", "GITHUB", [97, 98, 99, 100])).token == [0x69, 0xB7, 0x1D]
  {
    PlainGroup();
    NoLineBreak([97, 98, 99, 100]);
  }

  // ----- Rows with identifiers and the table they make

  ghost predicate DistinctIDs<V>(rows: seq<Row<V>>) {
    forall i, j :: 0 <= i < j < |rows| ==> rows[i].id != rows[j].id
  }

  /** The rows are the table's, each once, in some order. */
  ghost predicate Lists<V(!new)>(rows: seq<Row<V>>, table: map<string, V>) {
    DistinctIDs(rows) && forall r: Row<V> :: r in rows <==> r.id in table && table[r.id] == r.value
  }

  function TableOf<V>(rows: seq<Row<V>>): map<string, V> {
    if rows == [] then map[]
    else TableOf(rows[..|rows| - 1])[rows[|rows| - 1].id := rows[|rows| - 1].value]
  }

  lemma TablePush<V>(rows: seq<Row<V>>, r: Row<V>)
    ensures TableOf(rows + [r]) == TableOf(rows)[r.id := r.value]
  {
    assert (rows + [r])[..|rows|] == rows;
  }

  lemma {:induction false} TableHas<V>(rows: seq<Row<V>>)
    ensures forall id :: id in TableOf(rows) <==> exists k :: 0 <= k < |rows| && rows[k].id == id
    ensures DistinctIDs(rows) ==>
              forall k :: 0 <= k < |rows| ==> rows[k].id in TableOf(rows) && TableOf(rows)[rows[k].id] == rows[k].value
  {
    if rows != [] {
      var front := rows[..|rows| - 1];
      TableHas(front);
      forall id
        ensures id in TableOf(rows) <==> exists k :: 0 <= k < |rows| && rows[k].id == id
      {
        if id in TableOf(rows) {
          if id in TableOf(front) {
            var k :| 0 <= k < |front| && front[k].id == id;
            assert rows[k].id == id;
          }
        }
        if k :| 0 <= k < |rows| && rows[k].id == id {
          assert k < |front| ==> front[k].id == id;
        }
      }
      if DistinctIDs(rows) {
        forall k | 0 <= k < |front|
          ensures TableOf(rows)[rows[k].id] == rows[k].value
        {
          assert front[k] == rows[k];
        }
      }
    }
  }

  /** Whatever the order of the rows, they make the table they were read from. */
  lemma ListsGives<V(!new)>(rows: seq<Row<V>>, table: map<string, V>)
    requires Lists(rows, table)
    ensures TableOf(rows) == table
  {
    TableHas(rows);
    forall id | id in table
      ensures id in TableOf(rows) && TableOf(rows)[id] == table[id]
    {
      assert Row(id, table[id]) in rows;
    }
    forall id | id in TableOf(rows)
      ensures id in table
    {
      var k :| 0 <= k < |rows| && rows[k].id == id;
      assert rows[k] in rows;
    }
  }

  // ----- Tables from entries and back

  function UsersOf(entries: map<string, UserEntry>): map<string, UserRow> {
    map id | id in entries :: entries[id].row
  }

  function NameKeys(entries: map<string, UserEntry>): set<NameKey> {
    set id, platform | id in entries && platform in entries[id].platforms :: NameKey(id, platform)
  }

  function NamesOf(entries: map<string, UserEntry>): map<NameKey, string> {
    map k | k in NameKeys(entries) :: entries[k.user].platforms[k.platform]
  }

  function NamesOfUser(names: map<NameKey, string>, user: string): map<string, string> {
    map p | p in (set k | k in names && k.user == user :: k.platform) :: names[NameKey(user, p)]
  }

  function UserEntries(t: Tables): map<string, UserEntry> {
    map id | id in t.core.users :: UserEntry(t.core.users[id], NamesOfUser(t.platformNames, id))
  }

  lemma EntriesBack(t: Tables)
    requires NamesRefer(t.platformNames, t.core.users)
    ensures UsersOf(UserEntries(t)) == t.core.users && NamesOf(UserEntries(t)) == t.platformNames
  {
    var entries := UserEntries(t);
    forall k
      ensures k in NameKeys(entries) <==> k in t.platformNames
    {
      if k in t.platformNames {
        assert k.platform in NamesOfUser(t.platformNames, k.user);
      }
      if k in NameKeys(entries) {
        assert k.platform in NamesOfUser(t.platformNames, k.user);
      }
    }
  }

  function TeamNames(entries: map<string, TeamEntry>): map<string, string> {
    map id | id in entries :: entries[id].name
  }

  function PairsOf(entries: map<string, TeamEntry>, ids: TeamEntry -> seq<string>): set<Pair> {
    set team, id | team in entries && id in ids(entries[team]) :: Pair(team, id)
  }

  function Leaders(): TeamEntry -> seq<string> { (t: TeamEntry) => t.leaders }

  function Members(): TeamEntry -> seq<string> { (t: TeamEntry) => t.members }

  function Repos(): TeamEntry -> seq<string> { (t: TeamEntry) => t.repos }

  /** The team's list holds the team's rows of the relation, each once, in some order. */
  ghost predicate ListsPairs(ids: seq<string>, relation: set<Pair>, team: string) {
    NoRepeats(ids) && forall id :: id in ids <==> Pair(team, id) in relation
  }

  ghost predicate TeamListed(id: string, t: TeamEntry, db: Tables) {
    && id in db.core.teams && t.name == db.core.teams[id] && ListsPairs(t.leaders, db.core.leaders, id)
    && ListsPairs(t.members, db.core.members, id) && ListsPairs(t.repos, db.teamRepos, id)
  }

  ghost predicate TeamsListed(entries: map<string, TeamEntry>, db: Tables)
    requires entries.Keys == db.core.teams.Keys
  {
    forall id :: id in entries ==> TeamListed(id, entries[id], db)
  }

  lemma PairsBack(entries: map<string, TeamEntry>, ids: TeamEntry -> seq<string>, relation: set<Pair>)
    requires forall id :: id in entries ==> ListsPairs(ids(entries[id]), relation, id)
    requires forall p :: p in relation ==> p.team in entries
    ensures PairsOf(entries, ids) == relation
  {
    forall p
      ensures p in PairsOf(entries, ids) <==> p in relation
    {
      if p in relation {
        assert p.user in ids(entries[p.team]);
      }
    }
  }

  // ----- Export and restore

  function CodedRepos(repos: map<string, RepoRow>): map<string, RepoRow> {
    map id | id in repos :: Coded(repos[id])
  }

  function UncodedRepos(repos: map<string, RepoRow>): map<string, RepoRow> {
    map id | id in repos :: Uncoded(repos[id])
  }

  /** The file is an export of the tables; in what order the rows come is left to the database. */
  ghost predicate IsExport(file: BackupFile, db: Tables) {
    && Lists(file.users, UserEntries(db)) && Lists(file.accounts, db.core.accounts)
    && Lists(file.repos, CodedRepos(db.repos)) && file.config == db.config
    && DistinctIDs(file.teams) && TableOf(file.teams).Keys == db.core.teams.Keys && TeamsListed(TableOf(file.teams), db)
  }

  /** The tables after every row of the file went in. */
  function Restored(file: BackupFile): Tables {
    var teams := TableOf(file.teams);
    Tables(Db(UsersOf(TableOf(file.users)), TableOf(file.accounts), TeamNames(teams), PairsOf(teams, Members()),
              PairsOf(teams, Leaders())),
           NamesOf(TableOf(file.users)), UncodedRepos(TableOf(file.repos)), PairsOf(teams, Repos()), file.config)
  }

  ghost predicate TeamHasNoRepeats(t: TeamEntry) {
    NoRepeats(t.leaders) && NoRepeats(t.members) && NoRepeats(t.repos)
  }

  /** No primary key comes twice. */
  ghost predicate KeysDistinct(file: BackupFile) {
    && DistinctIDs(file.users) && DistinctIDs(file.accounts) && DistinctIDs(file.repos) && DistinctIDs(file.teams)
    && forall k :: 0 <= k < |file.teams| ==> TeamHasNoRepeats(file.teams[k].value)
  }

  /** Which files a restore accepts. */
  ghost predicate Acceptable(file: BackupFile, text: seq<Byte> -> bool) {
    KeysDistinct(file) && Constrained(Restored(file), text) && EveryoneHasARole(Restored(file).core.accounts)
  }

  lemma ReposBack(repos: map<string, RepoRow>)
    ensures UncodedRepos(CodedRepos(repos)) == repos
  {
    forall id | id in repos
      ensures UncodedRepos(CodedRepos(repos))[id] == repos[id]
    {
      CodedBack(repos[id]);
    }
  }

  lemma TeamsBack(entries: map<string, TeamEntry>, db: Tables)
    requires entries.Keys == db.core.teams.Keys && TeamsListed(entries, db)
    requires PairsRefer(db.core.members, db.core.teams, db.core.users)
    requires PairsRefer(db.core.leaders, db.core.teams, db.core.users)
    requires TeamReposRefer(db.teamRepos, db.core.teams, db.repos)
    ensures TeamNames(entries) == db.core.teams && PairsOf(entries, Repos()) == db.teamRepos
    ensures PairsOf(entries, Members()) == db.core.members && PairsOf(entries, Leaders()) == db.core.leaders
  {
    assert forall id :: id in entries ==> TeamListed(id, entries[id], db);
    PairsBack(entries, Members(), db.core.members);
    PairsBack(entries, Leaders(), db.core.leaders);
    PairsBack(entries, Repos(), db.teamRepos);
  }

  /** The rows of an export load back into the tables it was taken from. */
  lemma RestoredIsExported(file: BackupFile, db: Tables, text: seq<Byte> -> bool)
    requires Constrained(db, text) && IsExport(file, db)
    ensures Restored(file) == db
  {
    ListsGives(file.users, UserEntries(db));
    ListsGives(file.accounts, db.core.accounts);
    ListsGives(file.repos, CodedRepos(db.repos));
    EntriesBack(db);
    ReposBack(db.repos);
    TeamsBack(TableOf(file.teams), db);
  }

  lemma ExportedKeys(file: BackupFile, db: Tables)
    requires IsExport(file, db)
    ensures KeysDistinct(file)
  {
    TableHas(file.teams);
    forall k | 0 <= k < |file.teams|
      ensures TeamHasNoRepeats(file.teams[k].value)
    {
      assert TeamListed(file.teams[k].id, TableOf(file.teams)[file.teams[k].id], db);
    }
  }

  /** For every database that meets the schema, and however its rows are listed: the restore of an
      export succeeds if and only if every account has a role, and then the tables are the same. */
  lemma ExportRestores(file: BackupFile, db: Tables, text: seq<Byte> -> bool)
    requires Constrained(db, text) && IsExport(file, db)
    ensures Acceptable(file, text) <==> EveryoneHasARole(db.core.accounts)
    ensures Restored(file) == db
  {
    RestoredIsExported(file, db, text);
    ExportedKeys(file, db);
  }

  /** After any accepted file, wherever it came from, a further export and restore changes nothing. */
  lemma SecondTripChangesNothing(file: BackupFile, again: BackupFile, text: seq<Byte> -> bool)
    requires Acceptable(file, text) && IsExport(again, Restored(file))
    ensures Acceptable(again, text) && Restored(again) == Restored(file)
  {
    ExportRestores(again, Restored(file), text);
  }

  // ----- What a file means, row by row

  lemma RowsOf<V(!new)>(rows: seq<Row<V>>)
    requires DistinctIDs(rows)
    ensures forall r: Row<V> :: r in rows <==> r.id in TableOf(rows) && TableOf(rows)[r.id] == r.value
  {
    TableHas(rows);
    forall r: Row<V> | r.id in TableOf(rows) && TableOf(rows)[r.id] == r.value
      ensures r in rows
    {
      var k :| 0 <= k < |rows| && rows[k].id == r.id;
      assert rows[k] == r;
    }
  }

  /** The relation holds for each team of the file what that team lists, and nothing else. */
  ghost predicate RelationOf(relation: set<Pair>, teams: seq<Row<TeamEntry>>, ids: TeamEntry -> seq<string>) {
    forall p :: p in relation <==> exists r :: r in teams && r.id == p.team && p.user in ids(r.value)
  }

  lemma PairsExactly(teams: seq<Row<TeamEntry>>, ids: TeamEntry -> seq<string>)
    requires DistinctIDs(teams)
    ensures RelationOf(PairsOf(TableOf(teams), ids), teams, ids)
  {
    RowsOf(teams);
    var entries := TableOf(teams);
    forall p
      ensures p in PairsOf(entries, ids) <==> exists r :: r in teams && r.id == p.team && p.user in ids(r.value)
    {
      if p in PairsOf(entries, ids) {
        assert Row(p.team, entries[p.team]) in teams;
      }
    }
  }

  ghost predicate UsersRestored(users: map<string, UserRow>, names: map<NameKey, string>, rows: seq<Row<UserEntry>>) {
    && (forall r :: r in rows ==> r.id in users && users[r.id] == r.value.row)
    && (forall id :: id in users ==> exists r :: r in rows && r.id == id)
    && (forall r, p :: r in rows && p in r.value.platforms ==>
          NameKey(r.id, p) in names && names[NameKey(r.id, p)] == r.value.platforms[p])
    && (forall k :: k in names ==> exists r :: r in rows && r.id == k.user && k.platform in r.value.platforms)
  }

  lemma UsersExactly(rows: seq<Row<UserEntry>>)
    requires DistinctIDs(rows)
    ensures UsersRestored(UsersOf(TableOf(rows)), NamesOf(TableOf(rows)), rows)
  {
    RowsOf(rows);
    var entries := TableOf(rows);
    forall id | id in entries
      ensures exists r :: r in rows && r.id == id
    {
      assert Row(id, entries[id]) in rows;
    }
    forall k | k in NamesOf(entries)
      ensures exists r :: r in rows && r.id == k.user && k.platform in r.value.platforms
    {
      assert Row(k.user, entries[k.user]) in rows;
    }
  }

  /** The members, leaders and repositories a file lists for a team are the ones restored for that team;
      users, platform names, accounts, team names and settings are restored as they stand. */
  lemma RestoredExactly(file: BackupFile)
    requires KeysDistinct(file)
    ensures var t := Restored(file);
            && UsersRestored(t.core.users, t.platformNames, file.users)
            && Lists(file.accounts, t.core.accounts) && t.config == file.config
            && (forall r :: r in file.teams ==> r.id in t.core.teams && t.core.teams[r.id] == r.value.name)
            && (forall id :: id in t.core.teams ==> exists r :: r in file.teams && r.id == id)
            && RelationOf(t.core.members, file.teams, (t: TeamEntry) => t.members)
            && RelationOf(t.core.leaders, file.teams, (t: TeamEntry) => t.leaders)
            && RelationOf(t.teamRepos, file.teams, (t: TeamEntry) => t.repos)
  {
    UsersExactly(file.users);
    RowsOf(file.accounts);
    RowsOf(file.teams);
    PairsExactly(file.teams, Members());
    PairsExactly(file.teams, Leaders());
    PairsExactly(file.teams, Repos());
    forall id | id in TableOf(file.teams)
      ensures exists r :: r in file.teams && r.id == id
    {
      assert Row(id, TableOf(file.teams)[id]) in file.teams;
    }
  }
}
