/** The relational store behind the admin handlers: the tables as fields of a database object, and
    the repositories whose statements change them under the schema's constraints. */
module Stores {
  import opened Leadership
  import opened Seqs

  /** A team as the repository loads it; the lists come in no particular order. */
  datatype Team = Team(id: string, name: string, leaderIDs: seq<string>, memberIDs: seq<string>)

  datatype StoredAccount = StoredAccount(id: string, account: Account)

  // ----- What the constrained writes do

  predicate UserFits(db: Db, id: string, row: UserRow) {
    forall u :: u in db.users && db.users[u].username == row.username ==> u == id
  }

  /** Unique username, foreign key, and the role list: an empty one is sent as NULL. */
  predicate AccountFits(db: Db, id: string, account: Account) {
    && (forall a :: a in db.accounts && db.accounts[a].username == account.username ==> a == id)
    && account.userID in db.users && account.roles != {}
  }

  function Pairs(team: string, ids: seq<string>): set<Pair> {
    set u | u in ids :: Pair(team, u)
  }

  ghost predicate Insertable(db: Db, ids: seq<string>) {
    NoRepeats(ids) && forall u :: u in ids ==> u in db.users
  }

  function TeamSaved(db: Db, team: Team): Db {
    Db(db.users, db.accounts, db.teams[team.id := team.name],
       (set p | p in db.members && p.team != team.id) + Pairs(team.id, team.memberIDs),
       (set p | p in db.leaders && p.team != team.id) + Pairs(team.id, team.leaderIDs))
  }

  function MembersOf(db: Db, team: string): set<string> {
    set p | p in db.members && p.team == team :: p.user
  }

  /** The join of teams with the member rows of one user. */
  function TeamsOfMember(db: Db, user: string): set<string> {
    set p | p in db.members && p.user == user && p.team in db.teams :: p.team
  }

  ghost predicate TeamRead(db: Db, t: Team) {
    && t.id in db.teams && t.name == db.teams[t.id]
    && NoRepeats(t.leaderIDs) && NoRepeats(t.memberIDs)
    && (forall u :: u in t.leaderIDs <==> u in LeadersOf(db, t.id))
    && (forall u :: u in t.memberIDs <==> u in MembersOf(db, t.id))
  }

  ghost predicate TeamsRead(db: Db, teams: seq<Team>, ids: set<string>) {
    && (forall t :: t in teams ==> t.id in ids && TeamRead(db, t))
    && (forall id :: id in ids ==> exists t :: t in teams && t.id == id)
  }

  // ----- Reading rows, in whatever order the database returns them

  method List<T(==)>(rows: set<T>) returns (list: seq<T>)
    ensures NoRepeats(list) && forall x :: x in list <==> x in rows
  {
    list := [];
    var left := rows;
    while left != {}
      invariant NoRepeats(list) && left <= rows && forall x :: x in list <==> x in rows && x !in left
      decreases left
    {
      var x :| x in left;
      list := list + [x];
      left := left - {x};
    }
  }

  class Database {
    var users: map<string, UserRow>
    var accounts: map<string, Account>
    var teams: map<string, string>
    var members: set<Pair>
    var leaders: set<Pair>
    var platformNames: map<NameKey, string>
    var teamRepos: set<Pair>

    /** The tables the operations are about. */
    ghost function Snapshot(): Db
      reads this
    {
      Db(users, accounts, teams, members, leaders)
    }

    constructor (db: Db, platformNames: map<NameKey, string>, teamRepos: set<Pair>)
      ensures Snapshot() == db && this.platformNames == platformNames && this.teamRepos == teamRepos
    {
      this.platformNames, this.teamRepos := platformNames, teamRepos;
      users, accounts, teams, members, leaders := db.users, db.accounts, db.teams, db.members, db.leaders;
    }
  }

  class PgxUserRepo {
    const pool: Database

    constructor (pool: Database)
      ensures this.pool == pool
    {
      this.pool := pool;
    }

    method FindByID(id: string) returns (found: bool)
      ensures found <==> id in pool.users
    {
      found := id in pool.users;
    }

    method Save(id: string, row: UserRow) returns (ok: bool)
      modifies pool`users
      ensures ok <==> UserFits(old(pool.Snapshot()), id, row)
      ensures pool.Snapshot() == if ok then old(pool.Snapshot()).(users := old(pool.users)[id := row]) else old(pool.Snapshot())
    {
      ok := forall u :: u in pool.users && pool.users[u].username == row.username ==> u == id;
      if ok {
        pool.users := pool.users[id := row];
      }
    }

    /** The row goes, and by cascade every row that refers to it. */
    method Delete(id: string)
      modifies pool`users, pool`accounts, pool`members, pool`leaders, pool`platformNames
      ensures pool.Snapshot() == WithoutUser(old(pool.Snapshot()), id)
      ensures pool.platformNames == map k | k in old(pool.platformNames) && k.user != id :: old(pool.platformNames)[k]
    {
      pool.users := pool.users - {id};
      pool.accounts := map a | a in pool.accounts && pool.accounts[a].userID != id :: pool.accounts[a];
      pool.members := set p | p in pool.members && p.user != id;
      pool.leaders := set p | p in pool.leaders && p.user != id;
      pool.platformNames := map k | k in pool.platformNames && k.user != id :: pool.platformNames[k];
    }
  }

  class PgxUserAccountRepo {
    const pool: Database

    constructor (pool: Database)
      ensures this.pool == pool
    {
      this.pool := pool;
    }

    method Save(id: string, account: Account) returns (ok: bool)
      modifies pool`accounts
      ensures ok <==> AccountFits(old(pool.Snapshot()), id, account)
      ensures pool.Snapshot()
           == if ok then old(pool.Snapshot()).(accounts := old(pool.accounts)[id := account]) else old(pool.Snapshot())
    {
      var roles := account.roles;
      ok := (forall a :: a in pool.accounts && pool.accounts[a].username == account.username ==> a == id)
        && account.userID in pool.users && roles != {};
      if ok {
        pool.accounts := pool.accounts[id := account];
      }
    }

    method Delete(userID: string)
      modifies pool`accounts
      ensures pool.Snapshot() == old(pool.Snapshot()).(accounts :=
                map a | a in old(pool.accounts) && old(pool.accounts)[a].userID != userID :: old(pool.accounts)[a])
    {
      pool.accounts := map a | a in pool.accounts && pool.accounts[a].userID != userID :: pool.accounts[a];
    }

    method FindAll() returns (list: seq<StoredAccount>)
      ensures forall s :: s in list <==> s.id in pool.accounts && pool.accounts[s.id] == s.account
    {
      var accounts := pool.accounts;
      list := List(set id | id in accounts :: StoredAccount(id, accounts[id]));
    }
  }

  class PgxTeamRepo {
    const pool: Database

    constructor (pool: Database)
      ensures this.pool == pool
    {
      this.pool := pool;
    }

    method Load(id: string) returns (t: Team)
      requires id in pool.teams
      ensures TeamRead(pool.Snapshot(), t) && t.id == id
    {
      var leaders := List(set p | p in pool.leaders && p.team == id :: p.user);
      var members := List(set p | p in pool.members && p.team == id :: p.user);
      t := Team(id, pool.teams[id], leaders, members);
      assert LeadersOf(pool.Snapshot(), id) == set p | p in pool.leaders && p.team == id :: p.user;
    }

    method LoadAll(ids: set<string>) returns (teams: seq<Team>)
      requires ids <= pool.teams.Keys
      ensures TeamsRead(pool.Snapshot(), teams, ids)
    {
      var rows := List(ids);
      teams := [];
      for i := 0 to |rows|
        invariant |teams| == i && forall k :: 0 <= k < i ==> teams[k].id == rows[k] && TeamRead(pool.Snapshot(), teams[k])
      {
        var t := Load(rows[i]);
        teams := teams + [t];
      }
      forall id | id in ids
        ensures exists t :: t in teams && t.id == id
      {
        var k :| 0 <= k < |rows| && rows[k] == id;
        assert teams[k] in teams;
      }
    }

    method FindAll() returns (teams: seq<Team>)
      ensures TeamsRead(pool.Snapshot(), teams, pool.teams.Keys)
    {
      teams := LoadAll(pool.teams.Keys);
    }

    method FindByMemberID(memberID: string) returns (teams: seq<Team>)
      ensures TeamsRead(pool.Snapshot(), teams, TeamsOfMember(pool.Snapshot(), memberID))
    {
      assert TeamsOfMember(pool.Snapshot(), memberID)
          == set p | p in pool.members && p.user == memberID && p.team in pool.teams :: p.team;
      teams := LoadAll(set p | p in pool.members && p.user == memberID && p.team in pool.teams :: p.team);
    }

    /** Inserts into a relation keyed by team and user, stopping at the first violation. */
    static method InsertAll(relation: set<Pair>, db: Db, team: string, ids: seq<string>) returns (ok: bool, relation': set<Pair>)
      requires forall p :: p in relation ==> p.team != team
      ensures ok <==> Insertable(db, ids)
      ensures ok ==> relation' == relation + Pairs(team, ids)
    {
      relation' := relation;
      for i := 0 to |ids|
        invariant Insertable(db, ids[..i]) && relation' == relation + Pairs(team, ids[..i])
      {
        if Pair(team, ids[i]) in relation' || ids[i] !in db.users {
          assert !Insertable(db, ids) by {
            if ids[i] in db.users {
              var k :| 0 <= k < i && ids[k] == ids[i];
            }
          }
          return false, relation;
        }
        relation' := relation' + {Pair(team, ids[i])};
        assert ids[..i + 1] == ids[..i] + [ids[i]];
        assert Pairs(team, ids[..i + 1]) == Pairs(team, ids[..i]) + {Pair(team, ids[i])};
        assert ids[i] !in ids[..i];
      }
      assert ids[..|ids|] == ids;
      ok := true;
    }

    /** One transaction: the tables change together or not at all. */
    method Save(team: Team) returns (ok: bool)
      modifies pool`teams, pool`members, pool`leaders
      ensures ok <==> Insertable(old(pool.Snapshot()), team.leaderIDs) && Insertable(old(pool.Snapshot()), team.memberIDs)
      ensures pool.Snapshot() == if ok then TeamSaved(old(pool.Snapshot()), team) else old(pool.Snapshot())
      ensures ok ==> pool.teams == old(pool.teams)[team.id := team.name] && pool.users == old(pool.users)
      ensures ok ==> forall p :: p in pool.members <==>
                                 if p.team == team.id then p.user in team.memberIDs else p in old(pool.members)
      ensures ok ==> forall p :: p in pool.leaders <==>
                                 if p.team == team.id then p.user in team.leaderIDs else p in old(pool.leaders)
    {
      var db := Db(pool.users, pool.accounts, pool.teams, pool.members, pool.leaders);
      var leaders := set p | p in pool.leaders && p.team != team.id;
      ok, leaders := InsertAll(leaders, db, team.id, team.leaderIDs);
      if !ok {
        return;
      }
      var members := set p | p in pool.members && p.team != team.id;
      ok, members := InsertAll(members, db, team.id, team.memberIDs);
      if ok {
        pool.teams := pool.teams[team.id := team.name];
        pool.leaders, pool.members := leaders, members;
      }
    }

    method FindByID(id: string) returns (team: Option<Team>)
      ensures team.None? <==> id !in pool.teams
      ensures team.Some? ==> TeamRead(pool.Snapshot(), team.value) && team.value.id == id
    {
      if id !in pool.teams {
        return None;
      }
      var t := Load(id);
      team := Some(t);
    }

    method Delete(id: string)
      modifies pool`teams, pool`members, pool`leaders, pool`teamRepos
      ensures pool.Snapshot() == WithoutTeam(old(pool.Snapshot()), id)
      ensures pool.teamRepos == set p | p in old(pool.teamRepos) && p.team != id
    {
      pool.teams := pool.teams - {id};
      pool.members := set p | p in pool.members && p.team != id;
      pool.leaders := set p | p in pool.leaders && p.team != id;
      pool.teamRepos := set p | p in pool.teamRepos && p.team != id;
    }

    method AddMember(teamID: string, userID: string) returns (ok: bool)
      modifies pool`members
      ensures ok <==> Pair(teamID, userID) in old(pool.members) || (teamID in old(pool.teams) && userID in old(pool.users))
      ensures pool.Snapshot() == if ok then old(pool.Snapshot()).(members := old(pool.members) + {Pair(teamID, userID)})
                                 else old(pool.Snapshot())
    {
      if Pair(teamID, userID) in pool.members {
        assert pool.members + {Pair(teamID, userID)} == pool.members;
        return true;
      }
      ok := teamID in pool.teams && userID in pool.users;
      if ok {
        pool.members := pool.members + {Pair(teamID, userID)};
      }
    }

    method RemoveMember(teamID: string, userID: string) returns (ok: bool)
      modifies pool`members
      ensures ok <==> Pair(teamID, userID) !in old(pool.leaders)
      ensures pool.Snapshot() == if ok then old(pool.Snapshot()).(members := old(pool.members) - {Pair(teamID, userID)})
                                 else old(pool.Snapshot())
    {
      ok := Pair(teamID, userID) !in pool.leaders;
      if ok {
        pool.members := pool.members - {Pair(teamID, userID)};
      }
    }

    method AddLeader(teamID: string, userID: string) returns (ok: bool)
      modifies pool`leaders
      ensures ok <==> Pair(teamID, userID) in old(pool.leaders) || (teamID in old(pool.teams) && userID in old(pool.users))
      ensures pool.Snapshot() == if ok then old(pool.Snapshot()).(leaders := old(pool.leaders) + {Pair(teamID, userID)})
                                 else old(pool.Snapshot())
    {
      if Pair(teamID, userID) in pool.leaders {
        assert pool.leaders + {Pair(teamID, userID)} == pool.leaders;
        return true;
      }
      ok := teamID in pool.teams && userID in pool.users;
      if ok {
        pool.leaders := pool.leaders + {Pair(teamID, userID)};
      }
    }

    method RemoveLeader(teamID: string, userID: string) returns (ok: bool)
      modifies pool`leaders
      ensures ok <==> 1 < |LeadersOf(old(pool.Snapshot()), teamID)|
      ensures pool.Snapshot() == if ok then old(pool.Snapshot()).(leaders := old(pool.leaders) - {Pair(teamID, userID)})
                                 else old(pool.Snapshot())
    {
      var count := |set p | p in pool.leaders && p.team == teamID :: p.user|;
      assert LeadersOf(pool.Snapshot(), teamID) == set p | p in pool.leaders && p.team == teamID :: p.user;
      ok := 1 < count;
      if ok {
        pool.leaders := pool.leaders - {Pair(teamID, userID)};
      }
    }
  }
}
