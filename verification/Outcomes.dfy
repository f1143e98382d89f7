/** The eight admin operations row by row: when each is accepted, what becomes of every row of every
    table, and that a refusal leaves them all alone. */
module Outcomes {
  import opened Leadership
  import opened Seqs

  /** Of the accounts only the roles may differ. */
  ghost predicate SameButRoles(before: map<string, Account>, after: map<string, Account>) {
    && (forall a :: a in after <==> a in before)
    && forall a :: a in before ==>
         && after[a].username == before[a].username && after[a].passwordHash == before[a].passwordHash
         && after[a].userID == before[a].userID
  }

  /** Every account of the user has TEAM_LEADER besides its roles; nothing else changes. */
  ghost predicate LeaderRoleGiven(before: map<string, Account>, after: map<string, Account>, user: string) {
    && SameButRoles(before, after)
    && forall a, role :: a in before ==>
         (role in after[a].roles <==> role in before[a].roles || (role == TeamLeader && before[a].userID == user))
  }

  /** TEAM_LEADER goes from the accounts of these users, unless it is the only role; nothing else changes. */
  ghost predicate LeaderRoleTaken(before: map<string, Account>, after: map<string, Account>, loses: string -> bool) {
    && SameButRoles(before, after)
    && forall a, role :: a in before ==>
         (role in after[a].roles <==>
          role in before[a].roles && !(role == TeamLeader && before[a].roles != {TeamLeader} && loses(before[a].userID)))
  }

  ghost predicate UserCreated(db: Db, op: Op, r: Result)
    requires op.CreateUser?
  {
    if op.username == "" || op.password == "" || op.displayName == "" then r == Result(db, BadRequest)
    else if || op.hash.None? || (exists u :: u in db.users && db.users[u].username == op.username)
            || exists a :: a in db.accounts && db.accounts[a].username == op.username then r == Result(db, ServerError)
    else
      && r.response.Accepted?
      && (forall u :: u in r.db.users <==> u in db.users || u == op.userID)
      && (forall u :: u in db.users && u != op.userID ==> r.db.users[u] == db.users[u])
      && r.db.users[op.userID].username == op.username && r.db.users[op.userID].displayName == op.displayName
      && r.db.users[op.userID].email == op.email && r.db.users[op.userID].avatarURL == ""
      && (forall a :: a in r.db.accounts <==> a in db.accounts || a == op.accountID)
      && (forall a :: a in db.accounts && a != op.accountID ==> r.db.accounts[a] == db.accounts[a])
      && r.db.accounts[op.accountID].username == op.username && r.db.accounts[op.accountID].passwordHash == op.hash.value
      && r.db.accounts[op.accountID].userID == op.userID
      && (forall role :: role in r.db.accounts[op.accountID].roles <==>
                         role in op.roles || (op.roles == [] && role == TeamMember))
      && r.db.teams == db.teams && r.db.members == db.members && r.db.leaders == db.leaders
  }

  /** The user belongs to a team that nobody else leads. */
  ghost predicate LeadsAlone(db: Db, user: string) {
    exists t :: Pair(t, user) in db.members && Pair(t, user) in db.leaders && forall u :: Pair(t, u) in db.leaders ==> u == user
  }

  ghost predicate UserDeleted(db: Db, user: string, r: Result) {
    if LeadsAlone(db, user) then r == Result(db, BadRequest)
    else
      && r.response.Accepted?
      && (forall u :: u in r.db.users <==> u in db.users && u != user)
      && (forall u :: u in r.db.users ==> r.db.users[u] == db.users[u])
      && (forall a :: a in r.db.accounts <==> a in db.accounts && db.accounts[a].userID != user)
      && (forall a :: a in r.db.accounts ==> r.db.accounts[a] == db.accounts[a])
      && r.db.teams == db.teams
      && (forall p :: p in r.db.members <==> p in db.members && p.user != user)
      && (forall p :: p in r.db.leaders <==> p in db.leaders && p.user != user)
  }

  ghost predicate TeamCreated(db: Db, team: string, name: string, leader: string, r: Result) {
    if name == "" || leader == "" || leader !in db.users then r == Result(db, BadRequest)
    else
      && r.response.Accepted? && r.db.users == db.users
      && (forall t :: t in r.db.teams <==> t in db.teams || t == team)
      && (forall t :: t in db.teams && t != team ==> r.db.teams[t] == db.teams[t]) && r.db.teams[team] == name
      && (forall p :: p in r.db.members <==> p in db.members || p == Pair(team, leader))
      && (forall p :: p in r.db.leaders <==> p in db.leaders || p == Pair(team, leader))
      && LeaderRoleGiven(db.accounts, r.db.accounts, leader)
  }

  /** The user leads nothing besides this team. */
  predicate LeadsNoOther(db: Db, team: string, user: string) {
    forall p :: p in db.leaders && p.user == user ==> p.team == team
  }

  ghost predicate TeamDeleted(db: Db, team: string, r: Result) {
    if team !in db.teams then r == Result(db, NotFound)
    else
      && r.response.Accepted? && r.db.users == db.users
      && (forall t :: t in r.db.teams <==> t in db.teams && t != team)
      && (forall t :: t in r.db.teams ==> r.db.teams[t] == db.teams[t])
      && (forall p :: p in r.db.members <==> p in db.members && p.team != team)
      && (forall p :: p in r.db.leaders <==> p in db.leaders && p.team != team)
      && LeaderRoleTaken(db.accounts, r.db.accounts, u => Pair(team, u) in db.leaders && LeadsNoOther(db, team, u))
  }

  ghost predicate MemberAdded(db: Db, team: string, user: string, r: Result) {
    if user == "" then r == Result(db, BadRequest)
    else if Pair(team, user) in db.members then r == Result(db, Accepted)
    else if team !in db.teams || user !in db.users then r == Result(db, ServerError)
    else
      && r.response.Accepted? && r.db == db.(members := r.db.members)
      && forall p :: p in r.db.members <==> p in db.members || p == Pair(team, user)
  }

  ghost predicate MemberRemoved(db: Db, team: string, user: string, r: Result) {
    if Pair(team, user) in db.leaders then r == Result(db, BadRequest)
    else
      && r.response.Accepted? && r.db == db.(members := r.db.members)
      && forall p :: p in r.db.members <==> p in db.members && p != Pair(team, user)
  }

  ghost predicate LeaderAdded(db: Db, team: string, user: string, r: Result) {
    if user == "" then r == Result(db, BadRequest)
    else if team !in db.teams then r == Result(db, NotFound)
    else if Pair(team, user) !in db.members then r == Result(db, BadRequest)
    else
      && r.response.Accepted? && r.db == db.(leaders := r.db.leaders, accounts := r.db.accounts)
      && (forall p :: p in r.db.leaders <==> p in db.leaders || p == Pair(team, user))
      && LeaderRoleGiven(db.accounts, r.db.accounts, user)
  }

  ghost predicate LeaderRemoved(db: Db, team: string, user: string, r: Result) {
    if !exists u, v :: u != v && Pair(team, u) in db.leaders && Pair(team, v) in db.leaders then r == Result(db, BadRequest)
    else
      && r.response.Accepted? && r.db == db.(leaders := r.db.leaders, accounts := r.db.accounts)
      && (forall p :: p in r.db.leaders <==> p in db.leaders && p != Pair(team, user))
      && LeaderRoleTaken(db.accounts, r.db.accounts, u => u == user && LeadsNoOther(db, team, u))
  }

  ghost predicate Outcome(db: Db, op: Op, r: Result) {
    match op
    case CreateUser(_, _, _, _, _, _, _, _) => UserCreated(db, op, r)
    case DeleteUser(userID) => UserDeleted(db, userID, r)
    case CreateTeam(teamID, name, leaderID) => TeamCreated(db, teamID, name, leaderID, r)
    case DeleteTeam(teamID) => TeamDeleted(db, teamID, r)
    case AddMember(teamID, userID) => MemberAdded(db, teamID, userID, r)
    case RemoveMember(teamID, userID) => MemberRemoved(db, teamID, userID, r)
    case AddLeader(teamID, userID) => LeaderAdded(db, teamID, userID, r)
    case RemoveLeader(teamID, userID) => LeaderRemoved(db, teamID, userID, r)
  }

  lemma CreateUserExactly(db: Db, op: Op)
    requires op.CreateUser?
    ensures UserCreated(db, op, Apply(db, op))
  {
  }

  lemma AloneExactly(db: Db, user: string)
    ensures SoleLeaderSomewhere(db, user) <==> LeadsAlone(db, user)
  {
    if SoleLeaderSomewhere(db, user) {
      var p :| p in db.members && p.user == user && LeadersOf(db, p.team) == {user};
      assert user in LeadersOf(db, p.team);
      assert p == Pair(p.team, user);
      forall u | Pair(p.team, u) in db.leaders
        ensures u == user
      {
        assert u in LeadersOf(db, p.team);
      }
    }
    if LeadsAlone(db, user) {
      var t :| Pair(t, user) in db.members && Pair(t, user) in db.leaders && forall u :: Pair(t, u) in db.leaders ==> u == user;
      forall u
        ensures u in LeadersOf(db, t) <==> u == user
      {
        assert u in LeadersOf(db, t) <==> Pair(t, u) in db.leaders;
      }
    }
  }

  /** Deleting a user is refused exactly when he is a member of a team that he alone leads; else he is
      gone, with every account and pair that referred to him, and nothing else is. */
  lemma DeleteUserExactly(db: Db, user: string)
    ensures UserDeleted(db, user, Apply(db, DeleteUser(user)))
  {
    AloneExactly(db, user);
  }

  lemma GrantedExactly(accounts: map<string, Account>, user: string)
    ensures LeaderRoleGiven(accounts, Granted(accounts, user), user)
  {
  }

  lemma CreateTeamExactly(db: Db, team: string, name: string, leader: string)
    ensures TeamCreated(db, team, name, leader, Apply(db, CreateTeam(team, name, leader)))
  {
    GrantedExactly(db.accounts, leader);
  }

  lemma StrippedExactly(roles: set<Role>, role: Role)
    ensures role in Stripped(roles) <==> role in roles && !(role == TeamLeader && roles != {TeamLeader})
  {
    assert roles - {TeamLeader} == {} && TeamLeader in roles ==> roles == {TeamLeader};
  }

  lemma ReleasedExactly(between: Db, users: set<string>, loses: string -> bool)
    requires forall a :: a in between.accounts ==>
               var u := between.accounts[a].userID; (u in users && !Leads(between, u) <==> loses(u))
    ensures LeaderRoleTaken(between.accounts, Released(between, users).accounts, loses)
  {
    forall a, role | a in between.accounts
      ensures role in Released(between, users).accounts[a].roles <==>
              && role in between.accounts[a].roles
              && !(role == TeamLeader && between.accounts[a].roles != {TeamLeader} && loses(between.accounts[a].userID))
    {
      StrippedExactly(between.accounts[a].roles, role);
    }
  }

  /** Deleting a team takes its rows and those of no other, and TEAM_LEADER from the leaders who lead
      nothing else and have another role. */
  lemma DeleteTeamExactly(db: Db, team: string)
    ensures TeamDeleted(db, team, Apply(db, DeleteTeam(team)))
  {
    if team in db.teams {
      var between := WithoutTeam(db, team);
      forall u
        ensures u in LeadersOf(db, team) && !Leads(between, u) <==> Pair(team, u) in db.leaders && LeadsNoOther(db, team, u)
      {
        LedBesides(db, team, u);
      }
      ReleasedExactly(between, LeadersOf(db, team), u => Pair(team, u) in db.leaders && LeadsNoOther(db, team, u));
    }
  }

  lemma LedBesides(db: Db, team: string, u: string)
    ensures u in LeadersOf(db, team) <==> Pair(team, u) in db.leaders
    ensures Leads(WithoutTeam(db, team), u) <==> !LeadsNoOther(db, team, u)
  {
    if p :| p in db.leaders && p.user == u && p.team != team {
      assert p in WithoutTeam(db, team).leaders;
    }
  }

  lemma AddMemberExactly(db: Db, team: string, user: string)
    ensures MemberAdded(db, team, user, Apply(db, AddMember(team, user)))
  {
  }

  lemma RemoveMemberExactly(db: Db, team: string, user: string)
    ensures MemberRemoved(db, team, user, Apply(db, RemoveMember(team, user)))
  {
  }

  lemma AddLeaderExactly(db: Db, team: string, user: string)
    ensures LeaderAdded(db, team, user, Apply(db, AddLeader(team, user)))
  {
    GrantedExactly(db.accounts, user);
  }

  lemma TwoLeaders(db: Db, team: string)
    ensures |LeadersOf(db, team)| <= 1 <==> !exists u, v :: u != v && Pair(team, u) in db.leaders && Pair(team, v) in db.leaders
  {
    var leaders := LeadersOf(db, team);
    forall u
      ensures u in leaders <==> Pair(team, u) in db.leaders
    {
    }
    if u, v :| u != v && Pair(team, u) in db.leaders && Pair(team, v) in db.leaders {
      assert {u, v} <= leaders && |{u, v}| == 2;
      Smaller({u, v}, leaders);
    }
    if |leaders| > 1 {
      var u :| u in leaders;
      assert |leaders - {u}| > 0;
      var v :| v in leaders - {u};
      assert Pair(team, u) in db.leaders && Pair(team, v) in db.leaders;
    }
  }

  lemma Smaller<T>(a: set<T>, b: set<T>)
    requires a <= b
    ensures |a| <= |b|
  {
    assert b == a + (b - a);
  }

  /** A leader is removed exactly when the team has another one, whoever that is; the user then loses
      TEAM_LEADER if he leads no other team and has another role. */
  lemma RemoveLeaderExactly(db: Db, team: string, user: string)
    ensures LeaderRemoved(db, team, user, Apply(db, RemoveLeader(team, user)))
  {
    TwoLeaders(db, team);
    if |LeadersOf(db, team)| > 1 {
      var between := db.(leaders := db.leaders - {Pair(team, user)});
      assert Leads(between, user) <==> !LeadsNoOther(db, team, user) by {
        if p :| p in db.leaders && p.user == user && p.team != team {
          assert p in between.leaders;
        }
      }
      ReleasedExactly(between, {user}, u => u == user && LeadsNoOther(db, team, u));
    }
  }

  lemma ApplyExactly(db: Db, op: Op)
    ensures Outcome(db, op, Apply(db, op))
  {
    match op {
      case CreateUser(_, _, _, _, _, _, _, _) => CreateUserExactly(db, op);
      case DeleteUser(userID) => DeleteUserExactly(db, userID);
      case CreateTeam(teamID, name, leaderID) => CreateTeamExactly(db, teamID, name, leaderID);
      case DeleteTeam(teamID) => DeleteTeamExactly(db, teamID);
      case AddMember(teamID, userID) => AddMemberExactly(db, teamID, userID);
      case RemoveMember(teamID, userID) => RemoveMemberExactly(db, teamID, userID);
      case AddLeader(teamID, userID) => AddLeaderExactly(db, teamID, userID);
      case RemoveLeader(teamID, userID) => RemoveLeaderExactly(db, teamID, userID);
    }
  }
}
