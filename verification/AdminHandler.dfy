/** The admin handlers: each changes the stores step by step, and the outcome of those steps, on
    every path, is the operation of module Leadership. */
module AdminHandlers {
  import opened Leadership
  import opened Outcomes
  import opened Seqs
  import opened Stores

  /** No user has two accounts. */
  ghost predicate OneAccountAtMost(db: Db) {
    forall a, b :: a in db.accounts && b in db.accounts && db.accounts[a].userID == db.accounts[b].userID ==> a == b
  }

  // ----- What the handlers may do when a user has several accounts: the store's order decides

  function WithRole(account: Account): Account {
    account.(roles := account.roles + {TeamLeader})
  }

  function StrippedOf(account: Account): Account {
    account.(roles := Stripped(account.roles))
  }

  /** `ensureLeaderRole`: some account of the user has TEAM_LEADER, if the user has any account. */
  ghost predicate Grants(accounts: map<string, Account>, user: string, accounts': map<string, Account>) {
    || ((forall a :: a in accounts ==> accounts[a].userID != user) && accounts' == accounts)
    || exists a :: a in accounts && accounts[a].userID == user && accounts' == accounts[a := WithRole(accounts[a])]
  }

  predicate Holder(db: Db, user: string, a: string) {
    a in db.accounts && db.accounts[a].userID == user && TeamLeader in db.accounts[a].roles
  }

  /** `removeLeaderRoleIfOrphaned`: some holder among the user's accounts loses TEAM_LEADER, if there is
      one, the user leads no team and the remaining roles can be stored. */
  ghost predicate Releases(db: Db, user: string, db': Db) {
    if Leads(db, user) || forall a :: a in db.accounts ==> !Holder(db, user, a) then db' == db
    else exists a :: Holder(db, user, a) && db' == db.(accounts := db.accounts[a := StrippedOf(db.accounts[a])])
  }

  ghost predicate ReleasesLast(mid: Db, users: seq<string>, db': Db)
    requires users != []
  {
    Releases(mid, users[|users| - 1], db')
  }

  ghost predicate ReleasesAll(db: Db, users: seq<string>, db': Db)
    decreases |users|
  {
    if users == [] then db' == db
    else exists mid :: ReleasesAll(db, users[..|users| - 1], mid) && ReleasesLast(mid, users, db')
  }

  /** The outcomes an operation may have on any tables that meet the schema. */
  ghost predicate Permits(db: Db, op: Op, r: Result) {
    if !Apply(db, op).response.Accepted? then r == Apply(db, op)
    else
      r.response.Accepted? &&
      match op
      case CreateTeam(teamID, name, leaderID) =>
        && Grants(db.accounts, leaderID, r.db.accounts)
        && r.db == WithNewTeam(db, teamID, name, leaderID).(accounts := r.db.accounts)
      case AddLeader(teamID, userID) =>
        && Grants(db.accounts, userID, r.db.accounts)
        && r.db == WithLeader(db, Pair(teamID, userID)).(accounts := r.db.accounts)
      case RemoveLeader(teamID, userID) => Releases(db.(leaders := db.leaders - {Pair(teamID, userID)}), userID, r.db)
      case DeleteTeam(teamID) =>
        exists order :: && NoRepeats(order) && Elements(order) == LeadersOf(db, teamID)
                        && ReleasesAll(WithoutTeam(db, teamID), order, r.db)
      case _ => r == Apply(db, op)
  }

  lemma GrantsOnce(db: Db, user: string, accounts': map<string, Account>)
    requires OneAccountAtMost(db) && Grants(db.accounts, user, accounts')
    ensures accounts' == Granted(db.accounts, user)
  {
  }

  lemma ReleasesOnce(db: Db, user: string, db': Db)
    requires OneAccountAtMost(db) && Releases(db, user, db')
    ensures db' == Released(db, {user})
  {
    if Leads(db, user) || forall a :: a in db.accounts ==> !Holder(db, user, a) {
      forall a | a in db.accounts && db.accounts[a].userID == user
        ensures Leads(db, user) || TeamLeader !in db.accounts[a].roles
      {
        assert Holder(db, user, a) <==> TeamLeader in db.accounts[a].roles;
      }
      ReleaseNone(db, user);
    } else {
      var a :| Holder(db, user, a) && db' == db.(accounts := db.accounts[a := StrippedOf(db.accounts[a])]);
      ReleaseOne(db, a);
    }
  }

  lemma {:induction false} ReleasesAllOnce(db: Db, users: seq<string>, db': Db)
    requires OneAccountAtMost(db) && ReleasesAll(db, users, db')
    ensures db' == Released(db, Elements(users))
    decreases |users|
  {
    if users == [] {
      ReleaseNobody(db);
    } else {
      var front, last := users[..|users| - 1], users[|users| - 1];
      var mid :| ReleasesAll(db, front, mid) && ReleasesLast(mid, users, db');
      ReleasesAllOnce(db, front, mid);
      ReleasedSame(db, Elements(front));
      ReleasesOnce(mid, last, db');
      ReleaseMore(db, Elements(front), last);
      assert users == front + [last];
      assert Elements(users) == Elements(front) + {last};
    }
  }

  /** Where no user has two accounts, the one permitted outcome is that of the operation. */
  lemma PermitsOnce(db: Db, op: Op, r: Result)
    requires OneAccountAtMost(db) && Permits(db, op, r)
    ensures r == Apply(db, op)
  {
    if Apply(db, op).response.Accepted? {
      match op {
        case CreateTeam(teamID, name, leaderID) => GrantsOnce(db, leaderID, r.db.accounts);
        case AddLeader(teamID, userID) => GrantsOnce(db, userID, r.db.accounts);
        case RemoveLeader(teamID, userID) => ReleasesOnce(db.(leaders := db.leaders - {Pair(teamID, userID)}), userID, r.db);
        case DeleteTeam(teamID) =>
          var order :| NoRepeats(order) && Elements(order) == LeadersOf(db, teamID)
                       && ReleasesAll(WithoutTeam(db, teamID), order, r.db);
          ReleasesAllOnce(WithoutTeam(db, teamID), order, r.db);
        case _ =>
      }
    }
  }

  /** It is the operation's outcome row by row. */
  lemma PermitsExactly(db: Db, op: Op, r: Result)
    requires OneAccountAtMost(db) && Permits(db, op, r)
    ensures Outcome(db, op, r)
  {
    ApplyExactly(db, op);
    PermitsOnce(db, op, r);
  }

  /** In every state of every run the schema holds and no user has two accounts. */
  lemma InvIsSound(db: Db)
    requires Inv(db)
    ensures Schema(db) && OneAccountAtMost(db)
  {
  }

  // ----- Single steps in terms of the operations

  lemma ReleaseOne(db: Db, a: string)
    requires OneAccountAtMost(db) && a in db.accounts && !Leads(db, db.accounts[a].userID)
    ensures Released(db, {db.accounts[a].userID})
         == db.(accounts := db.accounts[a := db.accounts[a].(roles := Stripped(db.accounts[a].roles))])
  {
  }

  lemma ReleaseNone(db: Db, user: string)
    requires Leads(db, user)
          || forall a :: a in db.accounts && db.accounts[a].userID == user ==> TeamLeader !in db.accounts[a].roles
    ensures Released(db, {user}) == db
  {
    forall a | a in db.accounts
      ensures Released(db, {user}).accounts[a] == db.accounts[a]
    {
      if db.accounts[a].userID == user && !Leads(db, user) {
        assert db.accounts[a].roles - {TeamLeader} == db.accounts[a].roles;
      }
    }
  }

  function Elements(ids: seq<string>): set<string> {
    set u | u in ids
  }

  lemma StrippedTwice(roles: set<Role>)
    ensures Stripped(Stripped(roles)) == Stripped(roles)
  {
    assert roles - {TeamLeader} - {TeamLeader} == roles - {TeamLeader};
  }

  /** Releasing users one after the other is releasing them together. */
  lemma ReleaseMore(db: Db, users: set<string>, user: string)
    ensures Released(Released(db, users), {user}) == Released(db, users + {user})
  {
    var once := Released(db, users);
    forall a | a in db.accounts
      ensures Released(once, {user}).accounts[a] == Released(db, users + {user}).accounts[a]
    {
      StrippedTwice(db.accounts[a].roles);
      assert Leads(once, db.accounts[a].userID) <==> Leads(db, db.accounts[a].userID);
    }
  }

  lemma ReleaseNobody(db: Db)
    ensures Released(db, {}) == db
  {
  }

  lemma RolesOnly(db: Db, a: string, account: Account)
    requires Schema(db) && a in db.accounts
    requires account.username == db.accounts[a].username && account.userID == db.accounts[a].userID
    ensures Schema(db.(accounts := db.accounts[a := account]))
    ensures AccountFits(db, a, account) <==> account.roles != {}
  {
  }

  lemma ReleasesSchema(db: Db, user: string, db': Db)
    requires Schema(db) && Releases(db, user, db')
    ensures Schema(db')
  {
    if db' != db {
      var a :| Holder(db, user, a) && db' == db.(accounts := db.accounts[a := StrippedOf(db.accounts[a])]);
      RolesOnly(db, a, StrippedOf(db.accounts[a]));
    }
  }

  /** Deleting the account rows first makes no difference to the cascade. */
  lemma AccountsFirst(db: Db, user: string)
    ensures WithoutUser(db.(accounts := map a | a in db.accounts && db.accounts[a].userID != user :: db.accounts[a]), user)
         == WithoutUser(db, user)
  {
  }

  /** The compensating delete of a user nothing refers to yet restores the tables. */
  lemma Compensated(db: Db, userID: string, row: UserRow)
    requires Schema(db) && userID !in db.users
    ensures WithoutUser(db.(users := db.users[userID := row]), userID) == db
  {
    assert db.users[userID := row] - {userID} == db.users;
  }

  lemma SoleLeader(db: Db, t: Team, user: string)
    requires TeamRead(db, t)
    ensures |t.leaderIDs| == 1 && user in t.leaderIDs <==> LeadersOf(db, t.id) == {user}
  {
    assert |t.leaderIDs| > 1 ==> t.leaderIDs[0] != t.leaderIDs[1];
    if LeadersOf(db, t.id) == {user} {
      assert user in t.leaderIDs;
      forall i | 0 <= i < |t.leaderIDs|
        ensures t.leaderIDs[i] == user
      {
        assert t.leaderIDs[i] in t.leaderIDs;
      }
    }
    if |t.leaderIDs| == 1 && user in t.leaderIDs {
      assert t.leaderIDs[0] == user;
      assert LeadersOf(db, t.id) == {user};
    }
  }

  lemma SoleSomewhere(db: Db, teams: seq<Team>, user: string)
    requires PairsRefer(db.members, db.teams, db.users)
    requires TeamsRead(db, teams, TeamsOfMember(db, user))
    ensures SoleLeaderSomewhere(db, user) <==> exists t :: t in teams && |t.leaderIDs| == 1 && user in t.leaderIDs
  {
    forall t | t in teams
      ensures |t.leaderIDs| == 1 && user in t.leaderIDs <==> LeadersOf(db, t.id) == {user}
    {
      SoleLeader(db, t, user);
    }
    if SoleLeaderSomewhere(db, user) {
      var p :| p in db.members && p.user == user && LeadersOf(db, p.team) == {user};
      assert p.team in TeamsOfMember(db, user);
      var t :| t in teams && t.id == p.team;
    }
    if t :| t in teams && |t.leaderIDs| == 1 && user in t.leaderIDs {
      assert Pair(t.id, user) in db.members;
    }
  }

  lemma LeadsSomewhere(db: Db, teams: seq<Team>, user: string)
    requires PairsRefer(db.leaders, db.teams, db.users) && TeamsRead(db, teams, db.teams.Keys)
    ensures Leads(db, user) <==> exists t :: t in teams && user in t.leaderIDs
  {
    if Leads(db, user) {
      var p :| p in db.leaders && p.user == user;
      var t :| t in teams && t.id == p.team;
      assert user in LeadersOf(db, t.id);
    }
    if t :| t in teams && user in t.leaderIDs {
      assert user in LeadersOf(db, t.id);
      assert Pair(t.id, user) in db.leaders;
    }
  }

  /** A team with a new identifier has no rows to clear. */
  lemma NewTeamSaved(db: Db, teamID: string, name: string, leaderID: string)
    requires Schema(db) && teamID !in db.teams && leaderID in db.users
    ensures var saved := TeamSaved(db, Team(teamID, name, [leaderID], [leaderID]));
            && Schema(saved) && saved == WithNewTeam(db, teamID, name, leaderID).(accounts := db.accounts)
  {
    assert (set p | p in db.members && p.team != teamID) == db.members;
    assert (set p | p in db.leaders && p.team != teamID) == db.leaders;
    assert Pairs(teamID, [leaderID]) == {Pair(teamID, leaderID)};
  }

  lemma WithoutTeamSchema(db: Db, team: string)
    requires Schema(db)
    ensures Schema(WithoutTeam(db, team))
  {
  }

  lemma LeaderSchema(db: Db, p: Pair)
    requires Schema(db)
    ensures Schema(db.(leaders := db.leaders - {p}))
    ensures p in db.members ==> Schema(db.(leaders := db.leaders + {p}))
  {
  }

  class AdminHandler {
    const userRepo: PgxUserRepo
    const userAccountRepo: PgxUserAccountRepo
    const teamRepo: PgxTeamRepo

    constructor (pool: Database)
      ensures Wired() && Pool() == pool
    {
      userRepo := new PgxUserRepo(pool);
      userAccountRepo := new PgxUserAccountRepo(pool);
      teamRepo := new PgxTeamRepo(pool);
    }

    predicate Wired() {
      userRepo.pool == teamRepo.pool && userAccountRepo.pool == teamRepo.pool
    }

    function Pool(): Database {
      teamRepo.pool
    }

    // ----- The search loops of the handlers

    static method SoleLeaderOf(teams: seq<Team>, user: string) returns (found: bool)
      ensures found <==> exists t :: t in teams && |t.leaderIDs| == 1 && user in t.leaderIDs
    {
      for i := 0 to |teams|
        invariant forall k :: 0 <= k < i ==> !(|teams[k].leaderIDs| == 1 && user in teams[k].leaderIDs)
      {
        var leaderIDs := teams[i].leaderIDs;
        for j := 0 to |leaderIDs|
          invariant forall k :: 0 <= k < j ==> !(leaderIDs[k] == user && |leaderIDs| == 1)
        {
          if leaderIDs[j] == user && |leaderIDs| == 1 {
            return true;
          }
        }
      }
      found := false;
    }

    static method LeadsAny(teams: seq<Team>, user: string) returns (found: bool)
      ensures found <==> exists t :: t in teams && user in t.leaderIDs
    {
      for i := 0 to |teams|
        invariant forall k :: 0 <= k < i ==> user !in teams[k].leaderIDs
      {
        var leaderIDs := teams[i].leaderIDs;
        for j := 0 to |leaderIDs|
          invariant user !in leaderIDs[..j]
        {
          if leaderIDs[j] == user {
            return true;
          }
        }
        assert leaderIDs[..|leaderIDs|] == leaderIDs;
      }
      found := false;
    }

    static method Contains(ids: seq<string>, id: string) returns (found: bool)
      ensures found <==> id in ids
    {
      for i := 0 to |ids|
        invariant id !in ids[..i]
      {
        if ids[i] == id {
          return true;
        }
      }
      assert ids[..|ids|] == ids;
      found := false;
    }

    static method RoleSet(roles: seq<Role>) returns (asked: set<Role>)
      ensures forall r :: r in asked <==> r in roles
    {
      asked := {};
      for i := 0 to |roles|
        invariant forall r :: r in asked <==> r in roles[..i]
      {
        asked := asked + {roles[i]};
      }
      assert roles[..|roles|] == roles;
    }

    /** The first account of the user, with TEAM_LEADER if that is asked for. */
    static method FindAccount(list: seq<StoredAccount>, user: string, withRole: bool) returns (found: Option<StoredAccount>)
      ensures found.Some? ==> found.value in list && found.value.account.userID == user
      ensures found.Some? && withRole ==> TeamLeader in found.value.account.roles
      ensures found.None? ==> forall s :: s in list && s.account.userID == user ==> withRole && TeamLeader !in s.account.roles
    {
      for i := 0 to |list|
        invariant forall k :: 0 <= k < i && list[k].account.userID == user ==> withRole && TeamLeader !in list[k].account.roles
      {
        if list[i].account.userID == user && (!withRole || TeamLeader in list[i].account.roles) {
          return Some(list[i]);
        }
      }
      found := None;
    }

    method EnsureLeaderRole(user: string)
      requires Wired() && Schema(Pool().Snapshot())
      modifies Pool()
      ensures Grants(old(Pool().Snapshot()).accounts, user, Pool().Snapshot().accounts)
      ensures Pool().Snapshot() == old(Pool().Snapshot()).(accounts := Pool().Snapshot().accounts)
    {
      ghost var db := Pool().Snapshot();
      var accounts := userAccountRepo.FindAll();
      var found := FindAccount(accounts, user, false);
      match found {
        case Some(s) =>
          assert s.id in db.accounts && db.accounts[s.id] == s.account;
          RolesOnly(db, s.id, WithRole(s.account));
          if TeamLeader !in s.account.roles {
            var ok := userAccountRepo.Save(s.id, s.account.(roles := s.account.roles + {TeamLeader}));
          } else {
            assert s.account.roles + {TeamLeader} == s.account.roles;
            assert db.accounts == db.accounts[s.id := WithRole(s.account)];
          }
        case None =>
          assert forall a :: a in db.accounts ==> StoredAccount(a, db.accounts[a]) in accounts;
      }
    }

    method RemoveLeaderRoleIfOrphaned(user: string)
      requires Wired() && Schema(Pool().Snapshot())
      modifies Pool()
      ensures Releases(old(Pool().Snapshot()), user, Pool().Snapshot())
    {
      ghost var db := Pool().Snapshot();
      var teams := teamRepo.FindAll();
      LeadsSomewhere(db, teams, user);
      var leads := LeadsAny(teams, user);
      if leads {
        return;
      }
      var accounts := userAccountRepo.FindAll();
      var found := FindAccount(accounts, user, true);
      match found {
        case Some(s) =>
          assert s.id in db.accounts && db.accounts[s.id] == s.account;
          assert Holder(db, user, s.id);
          RolesOnly(db, s.id, s.account.(roles := s.account.roles - {TeamLeader}));
          assert db.accounts == db.accounts[s.id := s.account];
          var ok := userAccountRepo.Save(s.id, s.account.(roles := s.account.roles - {TeamLeader}));
        case None =>
          assert forall a :: a in db.accounts ==> StoredAccount(a, db.accounts[a]) in accounts;
      }
    }

    /** The loop of `DeleteTeam` over its former leaders. */
    method RemoveOrphanedRoles(former: seq<string>)
      requires Wired() && Schema(Pool().Snapshot())
      modifies Pool()
      ensures ReleasesAll(old(Pool().Snapshot()), former, Pool().Snapshot())
    {
      ghost var between := Pool().Snapshot();
      for i := 0 to |former|
        invariant Schema(Pool().Snapshot()) && ReleasesAll(between, former[..i], Pool().Snapshot())
      {
        ghost var mid := Pool().Snapshot();
        RemoveLeaderRoleIfOrphaned(former[i]);
        ReleasesSchema(mid, former[i], Pool().Snapshot());
        assert former[..i + 1][..i] == former[..i];
        assert ReleasesLast(mid, former[..i + 1], Pool().Snapshot());
      }
      assert former[..|former|] == former;
    }

    // ----- The handlers

    method CreateUser(op: Op) returns (response: Response)
      requires Wired() && Schema(Pool().Snapshot()) && op.CreateUser? && Fresh(Pool().Snapshot(), op)
      modifies Pool()
      ensures Result(Pool().Snapshot(), response) == Apply(old(Pool().Snapshot()), op)
      ensures UserCreated(old(Pool().Snapshot()), op, Result(Pool().Snapshot(), response))
    {
      ghost var db := Pool().Snapshot();
      CreateUserExactly(db, op);
      if op.username == "" || op.password == "" || op.displayName == "" {
        return BadRequest;
      }
      var requested := if op.roles == [] then [TeamMember] else op.roles;
      if op.hash.None? {
        return ServerError;
      }
      var row := UserRow(op.username, op.displayName, op.email, "");
      var ok := userRepo.Save(op.userID, row);
      if !ok {
        return ServerError;
      }
      var roles := RoleSet(requested);
      SomeRole(op.roles);
      assert roles == RequestedRoles(op.roles);
      ok := userAccountRepo.Save(op.accountID, Account(op.username, op.hash.value, roles, op.userID));
      if !ok {
        userRepo.Delete(op.userID);
        Compensated(db, op.userID, row);
        return ServerError;
      }
      response := Accepted;
    }

    method DeleteUser(userID: string) returns (response: Response)
      requires Wired() && Schema(Pool().Snapshot())
      modifies Pool()
      ensures Result(Pool().Snapshot(), response) == Apply(old(Pool().Snapshot()), Op.DeleteUser(userID))
      ensures UserDeleted(old(Pool().Snapshot()), userID, Result(Pool().Snapshot(), response))
    {
      ghost var db := Pool().Snapshot();
      DeleteUserExactly(db, userID);
      var teams := teamRepo.FindByMemberID(userID);
      SoleSomewhere(db, teams, userID);
      var sole := SoleLeaderOf(teams, userID);
      if sole {
        return BadRequest;
      }
      userAccountRepo.Delete(userID);
      userRepo.Delete(userID);
      AccountsFirst(db, userID);
      response := Accepted;
    }

    method CreateTeam(teamID: string, name: string, leaderID: string) returns (response: Response)
      requires Wired() && Schema(Pool().Snapshot()) && teamID !in Pool().Snapshot().teams
      modifies Pool()
      ensures Permits(old(Pool().Snapshot()), Op.CreateTeam(teamID, name, leaderID), Result(Pool().Snapshot(), response))
    {
      ghost var db := Pool().Snapshot();
      if name == "" || leaderID == "" {
        return BadRequest;
      }
      var found := userRepo.FindByID(leaderID);
      if !found {
        return BadRequest;
      }
      var ok := teamRepo.Save(Team(teamID, name, [leaderID], [leaderID]));
      if !ok {
        return ServerError;
      }
      NewTeamSaved(db, teamID, name, leaderID);
      EnsureLeaderRole(leaderID);
      response := Accepted;
    }

    method DeleteTeam(teamID: string) returns (response: Response)
      requires Wired() && Schema(Pool().Snapshot())
      modifies Pool()
      ensures Permits(old(Pool().Snapshot()), Op.DeleteTeam(teamID), Result(Pool().Snapshot(), response))
    {
      ghost var db := Pool().Snapshot();
      var team := teamRepo.FindByID(teamID);
      if team.None? {
        return NotFound;
      }
      var former := team.value.leaderIDs;
      teamRepo.Delete(teamID);
      WithoutTeamSchema(db, teamID);
      RemoveOrphanedRoles(former);
      assert Elements(former) == LeadersOf(db, teamID);
      response := Accepted;
    }

    method AddMember(teamID: string, userID: string) returns (response: Response)
      requires Wired() && Schema(Pool().Snapshot())
      modifies Pool()
      ensures Result(Pool().Snapshot(), response) == Apply(old(Pool().Snapshot()), Op.AddMember(teamID, userID))
      ensures MemberAdded(old(Pool().Snapshot()), teamID, userID, Result(Pool().Snapshot(), response))
    {
      AddMemberExactly(Pool().Snapshot(), teamID, userID);
      if userID == "" {
        return BadRequest;
      }
      var ok := teamRepo.AddMember(teamID, userID);
      response := if ok then Accepted else ServerError;
    }

    method RemoveMember(teamID: string, userID: string) returns (response: Response)
      requires Wired() && Schema(Pool().Snapshot())
      modifies Pool()
      ensures Result(Pool().Snapshot(), response) == Apply(old(Pool().Snapshot()), Op.RemoveMember(teamID, userID))
      ensures MemberRemoved(old(Pool().Snapshot()), teamID, userID, Result(Pool().Snapshot(), response))
    {
      RemoveMemberExactly(Pool().Snapshot(), teamID, userID);
      var ok := teamRepo.RemoveMember(teamID, userID);
      response := if ok then Accepted else BadRequest;
    }

    method AddLeader(teamID: string, userID: string) returns (response: Response)
      requires Wired() && Schema(Pool().Snapshot())
      modifies Pool()
      ensures Permits(old(Pool().Snapshot()), Op.AddLeader(teamID, userID), Result(Pool().Snapshot(), response))
    {
      ghost var db := Pool().Snapshot();
      if userID == "" {
        return BadRequest;
      }
      var team := teamRepo.FindByID(teamID);
      if team.None? {
        return NotFound;
      }
      var isMember := Contains(team.value.memberIDs, userID);
      if !isMember {
        return BadRequest;
      }
      var ok := teamRepo.AddLeader(teamID, userID);
      if !ok {
        return ServerError;
      }
      LeaderSchema(db, Pair(teamID, userID));
      EnsureLeaderRole(userID);
      response := Accepted;
    }

    method RemoveLeader(teamID: string, userID: string) returns (response: Response)
      requires Wired() && Schema(Pool().Snapshot())
      modifies Pool()
      ensures Permits(old(Pool().Snapshot()), Op.RemoveLeader(teamID, userID), Result(Pool().Snapshot(), response))
    {
      ghost var db := Pool().Snapshot();
      var ok := teamRepo.RemoveLeader(teamID, userID);
      if !ok {
        return BadRequest;
      }
      LeaderSchema(db, Pair(teamID, userID));
      RemoveLeaderRoleIfOrphaned(userID);
      response := Accepted;
    }
  }
}
