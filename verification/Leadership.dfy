/** Users, accounts, teams and team leadership: the eight admin operations as functions of the
    stored tables, and what every run of them keeps. */
module Leadership {
  import opened Seqs

  /** A role name other than the three known ones. */
  type OtherName = n: string | n != "ADMIN" && n != "TEAM_LEADER" && n != "TEAM_MEMBER" witness ""

  datatype Role = Admin | TeamLeader | TeamMember | OtherRole(name: OtherName)

  datatype UserRow = UserRow(username: string, displayName: string, email: string, avatarURL: string)

  datatype Account = Account(username: string, passwordHash: string, roles: set<Role>, userID: string)

  /** A pair of team and user, as in the member and leader tables. */
  datatype Pair = Pair(team: string, user: string)

  /** The key of a platform username. */
  datatype NameKey = NameKey(user: string, platform: string)

  datatype Db = Db(users: map<string, UserRow>, accounts: map<string, Account>, teams: map<string, string>,
                   members: set<Pair>, leaders: set<Pair>)

  // ----- Constraints and invariants

  ghost predicate UniqueUsernames(users: map<string, UserRow>) {
    forall u, v :: u in users && v in users && users[u].username == users[v].username ==> u == v
  }

  ghost predicate UniqueAccountNames(accounts: map<string, Account>) {
    forall a, b :: a in accounts && b in accounts && accounts[a].username == accounts[b].username ==> a == b
  }

  ghost predicate AccountsReferToUsers(accounts: map<string, Account>, users: map<string, UserRow>) {
    forall a :: a in accounts ==> accounts[a].userID in users
  }

  ghost predicate PairsRefer(pairs: set<Pair>, teams: map<string, string>, users: map<string, UserRow>) {
    forall p :: p in pairs ==> p.team in teams && p.user in users
  }

  /** What the database itself enforces: unique names and foreign keys. */
  ghost predicate Schema(db: Db) {
    && UniqueUsernames(db.users) && UniqueAccountNames(db.accounts) && AccountsReferToUsers(db.accounts, db.users)
    && PairsRefer(db.members, db.teams, db.users) && PairsRefer(db.leaders, db.teams, db.users)
  }

  ghost predicate HasAccount(accounts: map<string, Account>, user: string) {
    exists a :: a in accounts && accounts[a].userID == user
  }

  ghost predicate OneAccountEach(accounts: map<string, Account>, users: map<string, UserRow>) {
    && (forall u :: u in users ==> HasAccount(accounts, u))
    && (forall a, b :: a in accounts && b in accounts && accounts[a].userID == accounts[b].userID ==> a == b)
  }

  ghost predicate Led(leaders: set<Pair>, team: string) {
    exists u :: Pair(team, u) in leaders
  }

  ghost predicate AllLed(teams: map<string, string>, leaders: set<Pair>) {
    forall t :: t in teams ==> Led(leaders, t)
  }

  ghost predicate LeadersHoldRole(accounts: map<string, Account>, leaders: set<Pair>) {
    forall a, p :: a in accounts && p in leaders && accounts[a].userID == p.user ==> TeamLeader in accounts[a].roles
  }

  ghost predicate EveryoneHasARole(accounts: map<string, Account>) {
    forall a :: a in accounts ==> accounts[a].roles != {}
  }

  /** Leaders are members and members are users; every team is led; every user has exactly one
      account; every leader's account holds TEAM_LEADER. */
  ghost predicate Inv(db: Db) {
    match db case Db(users, accounts, teams, members, leaders) =>
      && UniqueUsernames(users) && UniqueAccountNames(accounts) && AccountsReferToUsers(accounts, users)
      && PairsRefer(members, teams, users) && PairsRefer(leaders, teams, users)
      && OneAccountEach(accounts, users)
      && leaders <= members
      && AllLed(teams, leaders)
      && LeadersHoldRole(accounts, leaders)
      && EveryoneHasARole(accounts)
  }

  predicate Leads(db: Db, user: string) {
    exists p :: p in db.leaders && p.user == user
  }

  function LeadersOf(db: Db, team: string): set<string> {
    set p | p in db.leaders && p.team == team :: p.user
  }

  // ----- The operations

  datatype Op =
    | CreateUser(userID: string, accountID: string, username: string, displayName: string, email: string,
                 password: string, hash: Option<string>, roles: seq<Role>)
    | DeleteUser(userID: string)
    | CreateTeam(teamID: string, name: string, leaderID: string)
    | DeleteTeam(teamID: string)
    | AddMember(teamID: string, userID: string)
    | RemoveMember(teamID: string, userID: string)
    | AddLeader(teamID: string, userID: string)
    | RemoveLeader(teamID: string, userID: string)

  datatype Response = Accepted | BadRequest | NotFound | ServerError

  datatype Result = Result(db: Db, response: Response)

  predicate UsernameTaken(db: Db, username: string) {
    exists u :: u in db.users && db.users[u].username == username
  }

  predicate AccountNameTaken(db: Db, username: string) {
    exists a :: a in db.accounts && db.accounts[a].username == username
  }

  function RequestedRoles(roles: seq<Role>): set<Role> {
    if roles == [] then {TeamMember} else set r | r in roles
  }

  /** `ensureLeaderRole`. */
  function Granted(accounts: map<string, Account>, user: string): map<string, Account> {
    map a | a in accounts ::
      if accounts[a].userID == user then accounts[a].(roles := accounts[a].roles + {TeamLeader}) else accounts[a]
  }

  /** The role set after taking TEAM_LEADER away; a set that would become empty cannot be saved, the
      error is ignored and the role stays. */
  function Stripped(roles: set<Role>): set<Role> {
    if roles - {TeamLeader} == {} then roles else roles - {TeamLeader}
  }

  /** `removeLeaderRoleIfOrphaned` for each of the users. */
  function Released(db: Db, users: set<string>): Db {
    db.(accounts := map a | a in db.accounts ::
      if db.accounts[a].userID in users && !Leads(db, db.accounts[a].userID)
      then db.accounts[a].(roles := Stripped(db.accounts[a].roles)) else db.accounts[a])
  }

  predicate SoleLeaderSomewhere(db: Db, user: string) {
    exists p :: p in db.members && p.user == user && LeadersOf(db, p.team) == {user}
  }

  /** The user row is gone, and with it whatever refers to it. */
  function WithoutUser(db: Db, user: string): Db {
    Db(db.users - {user},
       map a | a in db.accounts && db.accounts[a].userID != user :: db.accounts[a],
       db.teams,
       (set p | p in db.members && p.user != user),
       (set p | p in db.leaders && p.user != user))
  }

  function WithoutTeam(db: Db, team: string): Db {
    db.(teams := db.teams - {team},
        members := (set p | p in db.members && p.team != team),
        leaders := (set p | p in db.leaders && p.team != team))
  }

  function WithNewUser(db: Db, userID: string, accountID: string, row: UserRow, account: Account): Db {
    db.(users := db.users[userID := row], accounts := db.accounts[accountID := account])
  }

  function WithNewTeam(db: Db, teamID: string, name: string, leaderID: string): Db {
    Db(db.users, Granted(db.accounts, leaderID), db.teams[teamID := name],
       db.members + {Pair(teamID, leaderID)}, db.leaders + {Pair(teamID, leaderID)})
  }

  function WithLeader(db: Db, p: Pair): Db {
    db.(leaders := db.leaders + {p}, accounts := Granted(db.accounts, p.user))
  }

  function WithoutLeader(db: Db, p: Pair): Db {
    Released(db.(leaders := db.leaders - {p}), {p.user})
  }

  function Apply(db: Db, op: Op): Result {
    match op
    case CreateUser(userID, accountID, username, displayName, email, password, hash, roles) =>
      if username == "" || password == "" || displayName == "" then Result(db, BadRequest)
      else if hash.None? || UsernameTaken(db, username) || AccountNameTaken(db, username) then Result(db, ServerError)
      else Result(WithNewUser(db, userID, accountID, UserRow(username, displayName, email, ""),
                              Account(username, hash.value, RequestedRoles(roles), userID)), Accepted)
    case DeleteUser(userID) =>
      if SoleLeaderSomewhere(db, userID) then Result(db, BadRequest) else Result(WithoutUser(db, userID), Accepted)
    case CreateTeam(teamID, name, leaderID) =>
      if name == "" || leaderID == "" || leaderID !in db.users then Result(db, BadRequest)
      else Result(WithNewTeam(db, teamID, name, leaderID), Accepted)
    case DeleteTeam(teamID) =>
      if teamID !in db.teams then Result(db, NotFound)
      else Result(Released(WithoutTeam(db, teamID), LeadersOf(db, teamID)), Accepted)
    case AddMember(teamID, userID) =>
      if userID == "" then Result(db, BadRequest)
      else if Pair(teamID, userID) in db.members then Result(db, Accepted)
      else if teamID in db.teams && userID in db.users then
        Result(db.(members := db.members + {Pair(teamID, userID)}), Accepted)
      else Result(db, ServerError)
    case RemoveMember(teamID, userID) =>
      if Pair(teamID, userID) in db.leaders then Result(db, BadRequest)
      else Result(db.(members := db.members - {Pair(teamID, userID)}), Accepted)
    case AddLeader(teamID, userID) =>
      if userID == "" then Result(db, BadRequest)
      else if teamID !in db.teams then Result(db, NotFound)
      else if Pair(teamID, userID) !in db.members then Result(db, BadRequest)
      else Result(WithLeader(db, Pair(teamID, userID)), Accepted)
    case RemoveLeader(teamID, userID) =>
      if |LeadersOf(db, teamID)| <= 1 then Result(db, BadRequest)
      else Result(WithoutLeader(db, Pair(teamID, userID)), Accepted)
  }

  /** Generated identifiers do not collide with stored ones. */
  predicate Fresh(db: Db, op: Op) {
    match op
    case CreateUser(userID, accountID, _, _, _, _, _, _) => userID !in db.users && accountID !in db.accounts
    case CreateTeam(teamID, _, _) => teamID !in db.teams
    case _ => true
  }

  // ----- Every operation keeps the invariant: one table at a time

  lemma AddAccount(accounts: map<string, Account>, users: map<string, UserRow>, id: string, account: Account, row: UserRow)
    requires AccountsReferToUsers(accounts, users) && OneAccountEach(accounts, users)
    requires id !in accounts && account.userID !in users
    ensures AccountsReferToUsers(accounts[id := account], users[account.userID := row])
    ensures OneAccountEach(accounts[id := account], users[account.userID := row])
  {
    var accounts' := accounts[id := account];
    forall u | u in users[account.userID := row]
      ensures HasAccount(accounts', u)
    {
      if u == account.userID {
        assert accounts'[id].userID == u;
      } else {
        var a :| a in accounts && accounts[a].userID == u;
        assert accounts'[a].userID == u;
      }
    }
  }

  lemma NewNames(db: Db, userID: string, accountID: string, row: UserRow, account: Account)
    requires UniqueUsernames(db.users) && !UsernameTaken(db, row.username)
    requires UniqueAccountNames(db.accounts) && !AccountNameTaken(db, account.username)
    ensures UniqueUsernames(db.users[userID := row]) && UniqueAccountNames(db.accounts[accountID := account])
  {
    assert forall u :: u in db.users ==> db.users[u].username != row.username;
    assert forall a :: a in db.accounts ==> db.accounts[a].username != account.username;
  }

  lemma NewRoles(accounts: map<string, Account>, leaders: set<Pair>, id: string, account: Account)
    requires LeadersHoldRole(accounts, leaders) && EveryoneHasARole(accounts) && account.roles != {}
    requires forall p :: p in leaders ==> p.user != account.userID
    ensures LeadersHoldRole(accounts[id := account], leaders) && EveryoneHasARole(accounts[id := account])
  {
  }

  lemma NewUserKeeps(db: Db, userID: string, accountID: string, row: UserRow, account: Account)
    requires Inv(db) && userID !in db.users && accountID !in db.accounts
    requires !UsernameTaken(db, row.username) && !AccountNameTaken(db, account.username)
    requires account.userID == userID && account.roles != {}
    ensures Inv(WithNewUser(db, userID, accountID, row, account))
  {
    AddAccount(db.accounts, db.users, accountID, account, row);
    NewNames(db, userID, accountID, row, account);
    NewRoles(db.accounts, db.leaders, accountID, account);
  }

  lemma SomeRole(roles: seq<Role>)
    ensures RequestedRoles(roles) != {}
  {
    assert roles != [] ==> roles[0] in RequestedRoles(roles);
    assert roles == [] ==> TeamMember in RequestedRoles(roles);
  }

  /** Removing a user's rows from each table. */
  lemma WithoutUserRefers(db: Db, user: string)
    requires Schema(db)
    ensures Schema(WithoutUser(db, user))
  {
  }

  lemma WithoutUserAccounts(db: Db, user: string)
    requires OneAccountEach(db.accounts, db.users)
    ensures OneAccountEach(WithoutUser(db, user).accounts, WithoutUser(db, user).users)
  {
    var accounts := WithoutUser(db, user).accounts;
    forall u | u in WithoutUser(db, user).users
      ensures HasAccount(accounts, u)
    {
      var a :| a in db.accounts && db.accounts[a].userID == u;
      assert a in accounts && accounts[a].userID == u;
    }
  }

  /** Deleting a user is safe because leaders are members: a team the user leads alone is among
      the teams the handler looks at. */
  lemma WithoutUserLed(db: Db, user: string)
    requires AllLed(db.teams, db.leaders) && db.leaders <= db.members && !SoleLeaderSomewhere(db, user)
    ensures AllLed(db.teams, WithoutUser(db, user).leaders)
  {
    var leaders := WithoutUser(db, user).leaders;
    forall t | t in db.teams
      ensures Led(leaders, t)
    {
      var u :| Pair(t, u) in db.leaders;
      if u != user {
        assert Pair(t, u) in leaders;
      } else {
        assert Pair(t, user) in db.members;
        assert LeadersOf(db, t) != {user};
        assert user in LeadersOf(db, t);
        var v :| v in LeadersOf(db, t) && v != user;
        assert Pair(t, v) in leaders;
      }
    }
  }

  lemma WithoutUserKeeps(db: Db, user: string)
    requires Inv(db) && !SoleLeaderSomewhere(db, user)
    ensures Inv(WithoutUser(db, user))
  {
    WithoutUserRefers(db, user);
    WithoutUserAccounts(db, user);
    WithoutUserLed(db, user);
    var db' := WithoutUser(db, user);
    assert forall a :: a in db'.accounts ==> a in db.accounts && db'.accounts[a] == db.accounts[a];
  }

  /** Accounts may change their roles only. */
  ghost predicate SameAccounts(m: map<string, Account>, m': map<string, Account>) {
    m'.Keys == m.Keys && forall a :: a in m ==> m'[a].username == m[a].username && m'[a].userID == m[a].userID
  }

  lemma SameAccountsKeep(m: map<string, Account>, m': map<string, Account>, users: map<string, UserRow>)
    requires UniqueAccountNames(m) && AccountsReferToUsers(m, users) && OneAccountEach(m, users) && SameAccounts(m, m')
    ensures UniqueAccountNames(m') && AccountsReferToUsers(m', users) && OneAccountEach(m', users)
  {
    forall u | u in users
      ensures HasAccount(m', u)
    {
      var a :| a in m && m[a].userID == u;
      assert a in m' && m'[a].userID == u;
    }
  }

  lemma GrantedRoles(accounts: map<string, Account>, leaders: set<Pair>, user: string)
    requires LeadersHoldRole(accounts, leaders) && EveryoneHasARole(accounts)
    ensures LeadersHoldRole(Granted(accounts, user), leaders) && EveryoneHasARole(Granted(accounts, user))
  {
  }

  lemma GrantedKeeps(db: Db, user: string)
    requires Inv(db)
    ensures Inv(db.(accounts := Granted(db.accounts, user)))
  {
    SameAccountsKeep(db.accounts, Granted(db.accounts, user), db.users);
    GrantedRoles(db.accounts, db.leaders, user);
  }

  ghost predicate HoldsRole(accounts: map<string, Account>, user: string) {
    forall a :: a in accounts && accounts[a].userID == user ==> TeamLeader in accounts[a].roles
  }

  lemma LedMore(teams: map<string, string>, leaders: set<Pair>, p: Pair, teams': map<string, string>)
    requires AllLed(teams, leaders) && forall t :: t in teams' ==> t in teams || t == p.team
    ensures AllLed(teams', leaders + {p})
  {
    forall t | t in teams'
      ensures Led(leaders + {p}, t)
    {
      if t == p.team {
        assert Pair(t, p.user) in leaders + {p};
      } else {
        var u :| Pair(t, u) in leaders;
        assert Pair(t, u) in leaders + {p};
      }
    }
  }

  lemma GrantedHolds(accounts: map<string, Account>, user: string)
    ensures HoldsRole(Granted(accounts, user), user)
  {
  }

  lemma NewLeaderKeeps(db: Db, p: Pair)
    requires Inv(db) && p in db.members && HoldsRole(db.accounts, p.user)
    ensures Inv(db.(leaders := db.leaders + {p}))
  {
    LedMore(db.teams, db.leaders, p, db.teams);
  }

  lemma WithLeaderKeeps(db: Db, p: Pair)
    requires Inv(db) && p in db.members
    ensures Inv(WithLeader(db, p))
  {
    GrantedKeeps(db, p.user);
    GrantedHolds(db.accounts, p.user);
    NewLeaderKeeps(db.(accounts := Granted(db.accounts, p.user)), p);
  }

  /** The new team has its leader as its one member. */
  lemma NewTeamKeeps(db: Db, teamID: string, name: string, leaderID: string)
    requires Inv(db) && teamID !in db.teams && leaderID in db.users
    ensures Inv(WithNewTeam(db, teamID, name, leaderID))
  {
    GrantedKeeps(db, leaderID);
    GrantedHolds(db.accounts, leaderID);
    LedTeamKeeps(db.users, Granted(db.accounts, leaderID), db.teams, db.members, db.leaders, name, Pair(teamID, leaderID));
  }

  lemma LedTeamKeeps(users: map<string, UserRow>, accounts: map<string, Account>, teams: map<string, string>,
                     members: set<Pair>, leaders: set<Pair>, name: string, p: Pair)
    requires Inv(Db(users, accounts, teams, members, leaders))
    requires p.team !in teams && p.user in users && HoldsRole(accounts, p.user)
    ensures Inv(Db(users, accounts, teams[p.team := name], members + {p}, leaders + {p}))
  {
    LedMore(teams, leaders, p, teams[p.team := name]);
  }

  lemma ReleasedRoles(db: Db, users: set<string>)
    requires LeadersHoldRole(db.accounts, db.leaders) && EveryoneHasARole(db.accounts)
    ensures LeadersHoldRole(Released(db, users).accounts, db.leaders) && EveryoneHasARole(Released(db, users).accounts)
  {
  }

  lemma ReleasedSame(db: Db, users: set<string>)
    ensures SameAccounts(db.accounts, Released(db, users).accounts)
  {
  }

  lemma NewAccountsKeep(db: Db, accounts: map<string, Account>)
    requires Inv(db) && SameAccounts(db.accounts, accounts)
    requires LeadersHoldRole(accounts, db.leaders) && EveryoneHasARole(accounts)
    ensures Inv(Db(db.users, accounts, db.teams, db.members, db.leaders))
  {
    SameAccountsKeep(db.accounts, accounts, db.users);
  }

  /** Taking the role away from users who lead nothing breaks nothing. */
  lemma ReleasedKeeps(db: Db, users: set<string>)
    requires Inv(db)
    ensures Inv(Released(db, users))
  {
    ReleasedSame(db, users);
    ReleasedRoles(db, users);
    NewAccountsKeep(db, Released(db, users).accounts);
  }

  lemma WithoutTeamKeeps(db: Db, team: string)
    requires Inv(db)
    ensures Inv(WithoutTeam(db, team))
  {
    var db' := WithoutTeam(db, team);
    forall t | t in db'.teams
      ensures Led(db'.leaders, t)
    {
      var u :| Pair(t, u) in db.leaders;
      assert Pair(t, u) in db'.leaders;
    }
  }

  lemma AnotherLeader(db: Db, team: string, user: string)
    requires 1 < |LeadersOf(db, team)|
    ensures exists v :: v != user && Pair(team, v) in db.leaders
  {
    if LeadersOf(db, team) - {user} == {} {
      SubsetSize(LeadersOf(db, team), {user});
    } else {
      var v :| v in LeadersOf(db, team) - {user};
      assert Pair(team, v) in db.leaders;
    }
  }

  lemma SubsetSize<T>(a: set<T>, b: set<T>)
    requires a <= b
    ensures |a| <= |b|
  {
    assert b == a + (b - a);
    assert |a + (b - a)| == |a| + |b - a|;
  }

  lemma WithoutLeaderKeeps(db: Db, p: Pair)
    requires Inv(db) && 1 < |LeadersOf(db, p.team)|
    ensures Inv(WithoutLeader(db, p))
  {
    var between := db.(leaders := db.leaders - {p});
    AnotherLeader(db, p.team, p.user);
    forall t | t in between.teams
      ensures Led(between.leaders, t)
    {
      if t != p.team {
        var u :| Pair(t, u) in db.leaders;
        assert Pair(t, u) in between.leaders;
      }
    }
    ReleasedKeeps(between, {p.user});
  }

  lemma MembersKeep(db: Db, members: set<Pair>)
    requires Inv(db) && db.leaders <= members && PairsRefer(members, db.teams, db.users)
    ensures Inv(db.(members := members))
  {
  }

  // What the accepted operations do, and one lemma for each of them.

  lemma DeletedTeam(db: Db, op: Op)
    requires op.DeleteTeam? && Apply(db, op).response.Accepted?
    ensures Apply(db, op).db == Released(WithoutTeam(db, op.teamID), LeadersOf(db, op.teamID))
  {
  }

  lemma AddedLeader(db: Db, op: Op)
    requires op.AddLeader? && Apply(db, op).response.Accepted?
    ensures Pair(op.teamID, op.userID) in db.members && Apply(db, op).db == WithLeader(db, Pair(op.teamID, op.userID))
  {
  }

  lemma RemovedLeader(db: Db, op: Op)
    requires op.RemoveLeader? && Apply(db, op).response.Accepted?
    ensures 1 < |LeadersOf(db, op.teamID)| && Apply(db, op).db == WithoutLeader(db, Pair(op.teamID, op.userID))
  {
  }

  lemma SameInv(db: Db, db': Db)
    requires Inv(db) && db' == db
    ensures Inv(db')
  {
  }

  lemma CreateUserKeeps(db: Db, op: Op)
    requires Inv(db) && Fresh(db, op) && op.CreateUser? && Apply(db, op).response.Accepted?
    ensures Inv(Apply(db, op).db)
  {
    SomeRole(op.roles);
    NewUserKeeps(db, op.userID, op.accountID, UserRow(op.username, op.displayName, op.email, ""),
                 Account(op.username, op.hash.value, RequestedRoles(op.roles), op.userID));
  }

  lemma DeleteUserKeeps(db: Db, op: Op)
    requires Inv(db) && op.DeleteUser? && Apply(db, op).response.Accepted?
    ensures Inv(Apply(db, op).db)
  {
    WithoutUserKeeps(db, op.userID);
  }

  lemma CreateTeamKeeps(db: Db, op: Op)
    requires Inv(db) && Fresh(db, op) && op.CreateTeam? && Apply(db, op).response.Accepted?
    ensures Inv(Apply(db, op).db)
  {
    NewTeamKeeps(db, op.teamID, op.name, op.leaderID);
  }

  lemma DeleteTeamKeeps(db: Db, op: Op)
    requires Inv(db) && op.DeleteTeam? && Apply(db, op).response.Accepted?
    ensures Inv(Apply(db, op).db)
  {
    DeletedTeam(db, op);
    WithoutTeamKeeps(db, op.teamID);
    ReleasedKeeps(WithoutTeam(db, op.teamID), LeadersOf(db, op.teamID));
    SameInv(Released(WithoutTeam(db, op.teamID), LeadersOf(db, op.teamID)), Apply(db, op).db);
  }

  lemma AddMemberKeeps(db: Db, op: Op)
    requires Inv(db) && op.AddMember? && Apply(db, op).response.Accepted?
    ensures Inv(Apply(db, op).db)
  {
    if Pair(op.teamID, op.userID) !in db.members {
      MembersKeep(db, db.members + {Pair(op.teamID, op.userID)});
    }
  }

  lemma RemoveMemberKeeps(db: Db, op: Op)
    requires Inv(db) && op.RemoveMember? && Apply(db, op).response.Accepted?
    ensures Inv(Apply(db, op).db)
  {
    MembersKeep(db, db.members - {Pair(op.teamID, op.userID)});
  }

  lemma AddLeaderKeeps(db: Db, op: Op)
    requires Inv(db) && op.AddLeader? && Apply(db, op).response.Accepted?
    ensures Inv(Apply(db, op).db)
  {
    AddedLeader(db, op);
    WithLeaderKeeps(db, Pair(op.teamID, op.userID));
    SameInv(WithLeader(db, Pair(op.teamID, op.userID)), Apply(db, op).db);
  }

  lemma RemoveLeaderKeeps(db: Db, op: Op)
    requires Inv(db) && op.RemoveLeader? && Apply(db, op).response.Accepted?
    ensures Inv(Apply(db, op).db)
  {
    RemovedLeader(db, op);
    WithoutLeaderKeeps(db, Pair(op.teamID, op.userID));
    SameInv(WithoutLeader(db, Pair(op.teamID, op.userID)), Apply(db, op).db);
  }

  /** An operation that is not accepted changes nothing. */
  lemma RejectedChangesNothing(db: Db, op: Op)
    ensures !Apply(db, op).response.Accepted? ==> Apply(db, op).db == db
  {
    assert op.CreateUser? || op.DeleteUser? || op.CreateTeam? || op.DeleteTeam? || op.AddMember? || op.RemoveMember?
      || op.AddLeader? || op.RemoveLeader?;
  }

  /** Whatever the operation and whatever it answers, the invariant still holds afterwards. */
  lemma ApplyKeeps(db: Db, op: Op)
    requires Inv(db) && Fresh(db, op)
    ensures Inv(Apply(db, op).db)
  {
    if Apply(db, op).response.Accepted? {
      match op {
        case CreateUser(_, _, _, _, _, _, _, _) => CreateUserKeeps(db, op);
        case DeleteUser(_) => DeleteUserKeeps(db, op);
        case CreateTeam(_, _, _) => CreateTeamKeeps(db, op);
        case DeleteTeam(_) => DeleteTeamKeeps(db, op);
        case AddMember(_, _) => AddMemberKeeps(db, op);
        case RemoveMember(_, _) => RemoveMemberKeeps(db, op);
        case AddLeader(_, _) => AddLeaderKeeps(db, op);
        case RemoveLeader(_, _) => RemoveLeaderKeeps(db, op);
      }
    } else {
      RejectedChangesNothing(db, op);
      SameInv(db, Apply(db, op).db);
    }
  }

  // ----- Runs

  function Run(db: Db, ops: seq<Op>): Db {
    if ops == [] then db else Apply(Run(db, ops[..|ops| - 1]), ops[|ops| - 1]).db
  }

  ghost predicate FreshRun(db: Db, ops: seq<Op>) {
    forall k :: 0 <= k < |ops| ==> Fresh(Run(db, ops[..k]), ops[k])
  }

  lemma FreshFront(db: Db, ops: seq<Op>)
    requires FreshRun(db, ops) && ops != []
    ensures FreshRun(db, ops[..|ops| - 1])
  {
    forall k | 0 <= k < |ops| - 1
      ensures Fresh(Run(db, ops[..|ops| - 1][..k]), ops[k])
    {
      assert ops[..|ops| - 1][..k] == ops[..k];
    }
  }

  lemma {:induction false} RunKeeps(db: Db, ops: seq<Op>)
    requires Inv(db) && FreshRun(db, ops)
    ensures Inv(Run(db, ops))
  {
    if ops != [] {
      FreshFront(db, ops);
      RunKeeps(db, ops[..|ops| - 1]);
      ApplyKeeps(Run(db, ops[..|ops| - 1]), ops[|ops| - 1]);
    }
  }

  const SEED_HASH := "$2a$10$O3RpMvpbcSp0O62mvMfenuXfY243t61X97TmNniwCNfIqorxc4RFW"

  /** The demo data of the migrations. */
  const SEED := Db(
    map["u-alice" := UserRow("alice", "Alice Johnson", "alice@example.com", ""),
        "u-bob" := UserRow("bob", "Bob Smith", "bob@example.com", ""),
        "u-carol" := UserRow("carol", "Carol Davis", "carol@example.com", ""),
        "u-admin" := UserRow("admin", "Administrator", "admin@example.com", "")],
    map["a-alice" := Account("alice", SEED_HASH, {TeamMember}, "u-alice"),
        "a-bob" := Account("bob", SEED_HASH, {TeamMember}, "u-bob"),
        "a-carol" := Account("carol", SEED_HASH, {TeamMember, TeamLeader}, "u-carol"),
        "a-admin" := Account("admin", SEED_HASH, {Admin}, "u-admin")],
    map["t-eng" := "Engineering"],
    {Pair("t-eng", "u-alice"), Pair("t-eng", "u-bob"), Pair("t-eng", "u-carol")},
    {Pair("t-eng", "u-carol")})

  lemma Listed(accounts: map<string, Account>, users: map<string, UserRow>, a: seq<string>, u: seq<string>)
    requires |a| == |u| && (forall x :: x in accounts <==> x in a) && (forall x :: x in users <==> x in u)
    requires forall i :: 0 <= i < |a| ==> accounts[a[i]].userID == u[i]
    requires forall i, j :: 0 <= i < j < |a| ==> u[i] != u[j]
    ensures AccountsReferToUsers(accounts, users) && OneAccountEach(accounts, users)
  {
    forall v | v in users
      ensures HasAccount(accounts, v)
    {
      var i :| 0 <= i < |u| && v == u[i];
      assert accounts[a[i]].userID == v;
    }
    forall x, y | x in accounts && y in accounts && accounts[x].userID == accounts[y].userID
      ensures x == y
    {
      var i :| 0 <= i < |a| && x == a[i];
      var j :| 0 <= j < |a| && y == a[j];
    }
  }

  lemma ListedNames(users: map<string, UserRow>, u: seq<string>)
    requires forall x :: x in users <==> x in u
    requires forall i, j :: 0 <= i < j < |u| ==> users[u[i]].username != users[u[j]].username
    ensures UniqueUsernames(users)
  {
  }

  lemma ListedAccountNames(accounts: map<string, Account>, a: seq<string>)
    requires forall x :: x in accounts <==> x in a
    requires forall i, j :: 0 <= i < j < |a| ==> accounts[a[i]].username != accounts[a[j]].username
    ensures UniqueAccountNames(accounts)
  {
  }

  const SEED_USERS := ["u-alice", "u-bob", "u-carol", "u-admin"]
  const SEED_ACCOUNTS := ["a-alice", "a-bob", "a-carol", "a-admin"]

  lemma SeedDistinct()
    ensures forall i, j :: 0 <= i < j < 4 ==> SEED_USERS[i] != SEED_USERS[j]
  {
    assert "u-alice"[2] == 'a' && "u-admin"[2] == 'a' && "u-bob"[2] == 'b' && "u-carol"[2] == 'c';
    assert "u-alice"[3] == 'l' && "u-admin"[3] == 'd';
  }

  lemma SeedUsernames()
    ensures forall i :: 0 <= i < 4 ==> SEED_USERS[i] in SEED.users
    ensures forall i, j :: 0 <= i < j < 4 ==> SEED.users[SEED_USERS[i]].username != SEED.users[SEED_USERS[j]].username
  {
    assert "alice"[0] == 'a' && "admin"[0] == 'a' && "bob"[0] == 'b' && "carol"[0] == 'c';
    assert "alice"[1] == 'l' && "admin"[1] == 'd';
  }

  lemma SeedNames()
    ensures UniqueUsernames(SEED.users)
  {
    SeedUsernames();
    ListedNames(SEED.users, SEED_USERS);
  }

  lemma SeedAccountNames()
    ensures forall i :: 0 <= i < 4 ==>
              SEED_ACCOUNTS[i] in SEED.accounts && SEED.accounts[SEED_ACCOUNTS[i]].userID == SEED_USERS[i]
    ensures forall i, j :: 0 <= i < j < 4 ==>
              SEED.accounts[SEED_ACCOUNTS[i]].username != SEED.accounts[SEED_ACCOUNTS[j]].username
  {
    assert "alice"[0] == 'a' && "admin"[0] == 'a' && "bob"[0] == 'b' && "carol"[0] == 'c';
    assert "alice"[1] == 'l' && "admin"[1] == 'd';
  }

  lemma SeedAccounts()
    ensures AccountsReferToUsers(SEED.accounts, SEED.users) && OneAccountEach(SEED.accounts, SEED.users)
    ensures UniqueAccountNames(SEED.accounts)
  {
    SeedDistinct();
    SeedAccountNames();
    Listed(SEED.accounts, SEED.users, SEED_ACCOUNTS, SEED_USERS);
    ListedAccountNames(SEED.accounts, SEED_ACCOUNTS);
  }

  lemma SeedTeams()
    ensures PairsRefer(SEED.members, SEED.teams, SEED.users) && PairsRefer(SEED.leaders, SEED.teams, SEED.users)
    ensures SEED.leaders <= SEED.members && AllLed(SEED.teams, SEED.leaders)
  {
    assert Pair("t-eng", "u-carol") in SEED.leaders;
  }

  lemma SeedRoles()
    ensures LeadersHoldRole(SEED.accounts, SEED.leaders) && EveryoneHasARole(SEED.accounts)
  {
    assert TeamMember in SEED.accounts["a-alice"].roles && TeamMember in SEED.accounts["a-bob"].roles;
    assert TeamMember in SEED.accounts["a-carol"].roles && Admin in SEED.accounts["a-admin"].roles;
    assert "u-alice"[2] == 'a' && "u-admin"[2] == 'a' && "u-bob"[2] == 'b' && "u-carol"[2] == 'c';
  }

  lemma SeedInv()
    ensures Inv(SEED)
  {
    SeedNames();
    SeedAccounts();
    SeedTeams();
    SeedRoles();
  }

  /** From the seeded tables, leaders are members, members are users, every team is led, every user
      has exactly one account and every leader's account holds TEAM_LEADER: now and after any
      operations, accepted or not. */
  lemma AlwaysInv(ops: seq<Op>)
    requires FreshRun(SEED, ops)
    ensures Inv(Run(SEED, ops))
  {
    SeedInv();
    RunKeeps(SEED, ops);
  }

  // ----- The derived role

  /** TEAM_LEADER is held if and only if some team is led, and the account has a role besides. */
  ghost predicate Honest(db: Db, a: string) {
    a in db.accounts && db.accounts[a].roles - {TeamLeader} != {}
    && (TeamLeader in db.accounts[a].roles <==> Leads(db, db.accounts[a].userID))
  }

  lemma HonestAfterRelease(db: Db, between: Db, users: set<string>, a: string)
    requires Honest(db, a) && between.accounts == db.accounts
    requires forall u :: Leads(between, u) ==> Leads(db, u)
    requires forall u :: Leads(db, u) && !Leads(between, u) ==> u in users
    ensures Honest(Released(between, users), a)
  {
    var user := db.accounts[a].userID;
    var db' := Released(between, users);
    assert Leads(db', user) <==> Leads(between, user);
  }

  lemma HonestAfterGrant(db: Db, db': Db, p: Pair, a: string)
    requires Honest(db, a) && db'.accounts == Granted(db.accounts, p.user) && db'.leaders == db.leaders + {p}
    ensures Honest(db', a)
  {
    var user := db.accounts[a].userID;
    assert Leads(db', user) <==> Leads(db, user) || user == p.user by {
      if Leads(db, user) {
        var q :| q in db.leaders && q.user == user;
        assert q in db'.leaders;
      }
      assert p in db'.leaders;
    }
  }

  lemma TeamGone(db: Db, team: string)
    ensures forall u :: Leads(WithoutTeam(db, team), u) ==> Leads(db, u)
    ensures forall u :: Leads(db, u) && !Leads(WithoutTeam(db, team), u) ==> u in LeadersOf(db, team)
  {
    forall u | Leads(db, u) && !Leads(WithoutTeam(db, team), u)
      ensures u in LeadersOf(db, team)
    {
      var p :| p in db.leaders && p.user == u;
      assert p in WithoutTeam(db, team).leaders || p.team == team;
    }
  }

  lemma LeaderGone(db: Db, p: Pair)
    ensures var between := db.(leaders := db.leaders - {p});
            && (forall u :: Leads(between, u) ==> Leads(db, u))
            && (forall u :: Leads(db, u) && !Leads(between, u) ==> u == p.user)
  {
    var between := db.(leaders := db.leaders - {p});
    forall u | Leads(db, u) && !Leads(between, u)
      ensures u == p.user
    {
      var q :| q in db.leaders && q.user == u;
      assert q in between.leaders || q == p;
    }
  }

  lemma UserGone(db: Db, user: string, u: string)
    requires u != user
    ensures Leads(WithoutUser(db, user), u) <==> Leads(db, u)
  {
    if Leads(db, u) {
      var p :| p in db.leaders && p.user == u;
      assert p in WithoutUser(db, user).leaders;
    }
  }

  /** No operation, on this account or any other, can break the link between role and leadership. */
  lemma HonestKept(db: Db, op: Op, a: string)
    requires Honest(db, a) && Fresh(db, op) && a in Apply(db, op).db.accounts
    ensures Honest(Apply(db, op).db, a)
  {
    var db' := Apply(db, op).db;
    if Apply(db, op).response.Accepted? {
      match op {
        case CreateUser(userID, accountID, _, _, _, _, _, _) =>
          assert a != accountID && db'.accounts[a] == db.accounts[a];
          assert Leads(db', db.accounts[a].userID) <==> Leads(db, db.accounts[a].userID);
        case DeleteUser(userID) =>
          UserGone(db, userID, db.accounts[a].userID);
        case CreateTeam(teamID, _, leaderID) => HonestAfterGrant(db, db', Pair(teamID, leaderID), a);
        case DeleteTeam(teamID) =>
          TeamGone(db, teamID);
          HonestAfterRelease(db, WithoutTeam(db, teamID), LeadersOf(db, teamID), a);
        case AddMember(_, _) => assert Leads(db', db.accounts[a].userID) <==> Leads(db, db.accounts[a].userID);
        case RemoveMember(_, _) => assert Leads(db', db.accounts[a].userID) <==> Leads(db, db.accounts[a].userID);
        case AddLeader(teamID, userID) => HonestAfterGrant(db, db', Pair(teamID, userID), a);
        case RemoveLeader(teamID, userID) =>
          LeaderGone(db, Pair(teamID, userID));
          HonestAfterRelease(db, db.(leaders := db.leaders - {Pair(teamID, userID)}), {userID}, a);
      }
    }
  }

  /** What the handler checks before it creates an account, and TEAM_LEADER among the asked roles. */
  predicate NamesLeader(db: Db, op: Op) {
    && op.CreateUser? && TeamLeader in op.roles
    && op.username != "" && op.password != "" && op.displayName != "" && op.hash.Some?
    && !UsernameTaken(db, op.username) && !AccountNameTaken(db, op.username)
  }

  /** These are the creations that are accepted. */
  lemma NamesLeaderIsAccepted(db: Db, op: Op)
    ensures NamesLeader(db, op) <==> op.CreateUser? && TeamLeader in op.roles && Apply(db, op).response.Accepted?
  {
  }

  lemma NewAccount(db: Db, op: Op, a: string)
    requires a in Apply(db, op).db.accounts && a !in db.accounts
    ensures op.CreateUser? && a == op.accountID && Apply(db, op).response.Accepted?
  {
  }

  /** The account made by an accepted creation: its user leads nothing yet. */
  lemma AtCreation(db: Db, op: Op)
    requires Inv(db) && Fresh(db, op) && op.CreateUser? && Apply(db, op).response.Accepted?
    ensures var db' := Apply(db, op).db;
            && op.accountID in db'.accounts && db'.accounts[op.accountID].userID == op.userID
            && db'.accounts[op.accountID].roles == RequestedRoles(op.roles)
            && !Leads(db', op.userID)
  {
  }

  lemma CreatedHonest(db: Db, op: Op)
    requires Inv(db) && Fresh(db, op) && op.CreateUser? && Apply(db, op).response.Accepted?
    ensures Honest(Apply(db, op).db, op.accountID) <==> TeamLeader !in op.roles
  {
    AtCreation(db, op);
    SomeRole(op.roles);
    var roles := RequestedRoles(op.roles);
    assert TeamLeader in roles <==> TeamLeader in op.roles;
    if TeamLeader !in roles {
      assert roles - {TeamLeader} == roles;
    }
  }

  ghost predicate AllHonest(db: Db) {
    forall a :: a in db.accounts ==> Honest(db, a)
  }

  /** The documented rule for the derived role: TEAM_LEADER is held if and only if a team is led. */
  ghost predicate Exact(db: Db) {
    forall a :: a in db.accounts ==> (TeamLeader in db.accounts[a].roles <==> Leads(db, db.accounts[a].userID))
  }

  lemma AllHonestKept(db: Db, op: Op)
    requires Inv(db) && Fresh(db, op) && AllHonest(db) && !NamesLeader(db, op)
    ensures AllHonest(Apply(db, op).db)
  {
    forall a | a in Apply(db, op).db.accounts
      ensures Honest(Apply(db, op).db, a)
    {
      if a in db.accounts {
        HonestKept(db, op, a);
      } else {
        NewAccount(db, op, a);
        CreatedHonest(db, op);
      }
    }
  }

  lemma NamedLeaderBreaks(db: Db, op: Op)
    requires Inv(db) && Fresh(db, op) && NamesLeader(db, op)
    ensures !Exact(Apply(db, op).db)
  {
    AtCreation(db, op);
  }

  lemma SeedHonest()
    ensures AllHonest(SEED)
  {
    assert "u-alice"[2] == 'a' && "u-admin"[2] == 'a' && "u-bob"[2] == 'b' && "u-carol"[2] == 'c';
    assert Pair("t-eng", "u-carol") in SEED.leaders && Leads(SEED, "u-carol");
    assert TeamMember in SEED.accounts["a-alice"].roles - {TeamLeader};
    assert TeamMember in SEED.accounts["a-bob"].roles - {TeamLeader};
    assert TeamMember in SEED.accounts["a-carol"].roles - {TeamLeader};
    assert Admin in SEED.accounts["a-admin"].roles - {TeamLeader};
  }

  ghost predicate NoneNamed(db: Db, ops: seq<Op>) {
    forall k :: 0 <= k < |ops| ==> !NamesLeader(Run(db, ops[..k]), ops[k])
  }

  lemma {:induction false} HonestRun(db: Db, ops: seq<Op>)
    requires Inv(db) && AllHonest(db) && FreshRun(db, ops) && NoneNamed(db, ops)
    ensures AllHonest(Run(db, ops))
  {
    if ops != [] {
      var front := ops[..|ops| - 1];
      FreshFront(db, ops);
      assert forall k :: 0 <= k < |front| ==> front[..k] == ops[..k];
      HonestRun(db, front);
      RunKeeps(db, front);
      AllHonestKept(Run(db, front), ops[|ops| - 1]);
    }
  }

  lemma Prefixes(db: Db, ops: seq<Op>, n: nat)
    requires n <= |ops| && FreshRun(db, ops)
    ensures FreshRun(db, ops[..n]) && (NoneNamed(db, ops) ==> NoneNamed(db, ops[..n]))
  {
    assert forall k :: 0 <= k < n ==> ops[..n][..k] == ops[..k];
  }

  ghost predicate AlwaysExact(db: Db, ops: seq<Op>) {
    forall n :: 0 <= n <= |ops| ==> Exact(Run(db, ops[..n]))
  }

  lemma ExactIffNoneNamed(db: Db, ops: seq<Op>)
    requires Inv(db) && AllHonest(db) && FreshRun(db, ops)
    ensures AlwaysExact(db, ops) <==> NoneNamed(db, ops)
  {
    if NoneNamed(db, ops) {
      forall n | 0 <= n <= |ops|
        ensures Exact(Run(db, ops[..n]))
      {
        Prefixes(db, ops, n);
        HonestRun(db, ops[..n]);
      }
    } else {
      var k :| 0 <= k < |ops| && NamesLeader(Run(db, ops[..k]), ops[k]);
      Prefixes(db, ops, k);
      RunKeeps(db, ops[..k]);
      NamedLeaderBreaks(Run(db, ops[..k]), ops[k]);
      assert ops[..k + 1][..k] == ops[..k];
      assert !Exact(Run(db, ops[..k + 1]));
    }
  }

  /** Over every run from the seeded tables the derived role is exact at every moment if and only if
      no creation that passes the handler's checks names TEAM_LEADER. */
  lemma DerivedRoleExactly(ops: seq<Op>)
    requires FreshRun(SEED, ops)
    ensures AlwaysExact(SEED, ops) <==> NoneNamed(SEED, ops)
  {
    SeedInv();
    SeedHonest();
    ExactIffNoneNamed(SEED, ops);
  }

  ghost predicate Stays(db: Db, ops: seq<Op>, a: string) {
    forall n :: 0 <= n <= |ops| ==> a in Run(db, ops[..n]).accounts
  }

  /** One account, whatever is done to the others, even if some of them are given TEAM_LEADER by
      name: from an honest start its role is exact for as long as it exists. */
  lemma {:induction false} OneAccountExact(db: Db, ops: seq<Op>, a: string)
    requires Honest(db, a) && FreshRun(db, ops) && Stays(db, ops, a)
    ensures Honest(Run(db, ops), a)
  {
    if ops != [] {
      var front := ops[..|ops| - 1];
      FreshFront(db, ops);
      assert forall n :: 0 <= n <= |front| ==> front[..n] == ops[..n];
      assert ops[..|ops|] == ops;
      OneAccountExact(db, front, a);
      HonestKept(Run(db, front), ops[|ops| - 1], a);
    }
  }

  /** From its creation without TEAM_LEADER on, through any further operations, an account holds
      TEAM_LEADER if and only if its user leads a team. */
  lemma CreatedAccountExact(db: Db, op: Op, ops: seq<Op>)
    requires Inv(db) && Fresh(db, op) && op.CreateUser? && Apply(db, op).response.Accepted? && TeamLeader !in op.roles
    requires FreshRun(Apply(db, op).db, ops) && Stays(Apply(db, op).db, ops, op.accountID)
    ensures var db' := Run(Apply(db, op).db, ops);
            && op.accountID in db'.accounts
            && (TeamLeader in db'.accounts[op.accountID].roles <==> Leads(db', db'.accounts[op.accountID].userID))
  {
    CreatedHonest(db, op);
    OneAccountExact(Apply(db, op).db, ops, op.accountID);
    assert ops[..|ops|] == ops;
  }

  lemma SeedHasNo(name: string)
    requires |name| == 4 && name[0] == 'd'
    ensures !UsernameTaken(SEED, name) && !AccountNameTaken(SEED, name)
  {
    assert "alice"[0] == 'a' && "admin"[0] == 'a' && "bob"[0] == 'b' && "carol"[0] == 'c';
  }

  lemma SeedHasNoID(userID: string, accountID: string)
    requires |userID| == 6 && userID[2] == 'd' && |accountID| == 6 && accountID[2] == 'd'
    ensures userID !in SEED.users && accountID !in SEED.accounts
  {
    assert "u-bob"[2] == 'b' && "a-bob"[2] == 'b';
  }

  const DAVE := CreateUser("u-dave", "a-dave", "dave", "Dave", "", "pw", Some("hash"), [TeamLeader])

  lemma DaveIsAccepted()
    ensures Fresh(SEED, DAVE) && NamesLeader(SEED, DAVE)
  {
    SeedHasNo("dave");
    SeedHasNoID("u-dave", "a-dave");
  }

  /** The documented rule does not hold of every run: this operation creates a leader of nothing. */
  lemma RuleFails()
    ensures Fresh(SEED, DAVE) && !Exact(Apply(SEED, DAVE).db)
  {
    DaveIsAccepted();
    SeedInv();
    NamedLeaderBreaks(SEED, DAVE);
  }

  /** A leader whose only role is TEAM_LEADER keeps it: the empty role set cannot be stored and the
      failure to store it is ignored. Any other role set loses TEAM_LEADER exactly when no team is
      led any more. */
  lemma ReleaseExactly(db: Db, users: set<string>, a: string)
    requires a in db.accounts && db.accounts[a].userID in users && TeamLeader in db.accounts[a].roles
    ensures TeamLeader in Released(db, users).accounts[a].roles
            <==> Leads(db, db.accounts[a].userID) || db.accounts[a].roles == {TeamLeader}
  {
    assert db.accounts[a].roles - {TeamLeader} == {} <==> db.accounts[a].roles == {TeamLeader};
  }
}
