/**
 * `TowerOrganization`: gets or creates the organization, adds every user of
 * every project as a member, reconciles one team per project group when teams
 * are used, and sets up one workspace per project.
 */
module Organizations {
  import opened Wrappers
  import opened Text
  import opened Dicts
  import opened Roles
  import opened Client
  import opened Remote
  import opened Workspaces

  /** The first organization of `os` with the given full name. */
  function FindOrg(os: seq<Org>, fullName: string): (r: Option<Org>)
    ensures r.Some? ==> r.value in os && r.value.fullName == fullName
    ensures r.Some? ==> exists i :: 0 <= i < |os| && os[i] == r.value && forall j :: 0 <= j < i ==> os[j].fullName != fullName
    ensures r.None? ==> forall o :: o in os ==> o.fullName != fullName
  {
    if os == [] then None
    else if os[0].fullName == fullName then Some(os[0])
    else FindOrg(os[1..], fullName)
  }

  lemma {:induction false} FindOrgAppend(os: seq<Org>, o: Org)
    requires FindOrg(os, o.fullName).None?
    ensures FindOrg(os + [o], o.fullName) == Some(o)
  {
    if os != [] {
      assert (os + [o])[1..] == os[1..] + [o];
      FindOrgAppend(os[1..], o);
    }
  }

  /** The first team of `ts` with the given name. */
  function FindTeam(ts: seq<TeamRecord>, name: string): (r: Option<TeamRecord>)
    ensures r.Some? ==> r.value in ts && r.value.name == name
    ensures r.Some? ==> exists i :: 0 <= i < |ts| && ts[i] == r.value && forall j :: 0 <= j < i ==> ts[j].name != name
    ensures r.None? ==> forall t :: t in ts ==> t.name != name
  {
    if ts == [] then None
    else if ts[0].name == name then Some(ts[0])
    else FindTeam(ts[1..], name)
  }

  /** The last member of `ms` with the given user name. */
  function LastNamed(ms: seq<Member>, userName: string): (r: Option<Member>)
    ensures r.Some? ==> r.value in ms && r.value.userName == userName
    ensures r.Some? ==> exists i :: 0 <= i < |ms| && ms[i] == r.value && forall j :: i < j < |ms| ==> ms[j].userName != userName
    ensures r.None? ==> forall m :: m in ms ==> m.userName != userName
  {
    if ms == [] then None
    else if ms[|ms| - 1].userName == userName then Some(ms[|ms| - 1])
    else LastNamed(ms[..|ms| - 1], userName)
  }

  /** One more member of the listing scanned. */
  lemma LastNamedStep(ms: seq<Member>, i: nat, userName: string)
    requires i < |ms|
    ensures LastNamed(ms[..i + 1], userName) == if ms[i].userName == userName then Some(ms[i]) else LastNamed(ms[..i], userName)
  {
    assert ms[..i + 1][..i] == ms[..i];
  }

  /** In a listing without repeated emails, the member with an email is the first one with it. */
  lemma FindEmailIs(ms: seq<Member>, m: Member)
    requires DistinctEmails(ms) && m in ms
    ensures FindEmail(ms, m.email) == Some(m)
  {
    var f := FindEmail(ms, m.email).value;
    var i :| 0 <= i < |ms| && ms[i] == m;
    var j :| 0 <= j < |ms| && ms[j] == f;
    assert i == j;
  }

  /** The reply to adding an existing member names the member between the first two quotes. */
  lemma AlreadyMemberQuotes(userName: string)
    requires Quote !in userName
    ensures |Split(AlreadyMember(userName), Quote)| >= 2
    ensures Split(AlreadyMember(userName), Quote)[1] == userName
  {
    SplitEnclosed("User ", userName, " is already a member", Quote);
  }

  /** The reply to adding an existing member says "already a member". */
  lemma AlreadyMemberSays(userName: string)
    ensures Contains(AlreadyMember(userName), "already a member")
  {
    var s := AlreadyMember(userName);
    var n := |userName| + 11;
    assert s[n..n + 16] == " is already a member"[4..];
    assert OccursAt(s, "already a member", n);
  }

  /** Of the server's team replies, only the one for a present member says "already". */
  lemma TeamMessages()
    ensures Contains(AlreadyInTeam, "already")
    ensures !Contains(NotAMember, "already")
  {
    ContainsAt("The member is ", "already", " associated with the team");
    if Contains(NotAMember, "already") {
      ContainsFirst(NotAMember, "already");
      assert false;
    }
  }

  /** `project_name[:-8]`: the project name without its last eight characters, empty when shorter. */
  function Prefix(project: string): (p: string)
    ensures |project| >= 8 ==> project == p + project[|project| - 8..]
    ensures |project| < 8 ==> p == ""
  {
    if |project| >= 8 then project[..|project| - 8] else ""
  }

  /** The cut takes off the `-project` suffix of a conventional project name. */
  lemma PrefixOfProject(stem: string)
    ensures Prefix(stem + "-project") == stem
  {
    assert (stem + "-project")[..|stem|] == stem;
  }

  /** The team of a project group: the project prefix, a dash and the group name. */
  function TeamName(project: string, g: Group): (name: string)
    ensures |name| > |Prefix(project)| + 1
  {
    Prefix(project) + "-" + GroupName(g)
  }

  /** The groups of one project get teams with different names. */
  lemma TeamNamesDiffer(project: string, g: Group, h: Group)
    requires g != h
    ensures TeamName(project, g) != TeamName(project, h)
  {
    var n := |Prefix(project)| + 1;
    assert TeamName(project, g)[n..] == GroupName(g);
    assert TeamName(project, h)[n..] == GroupName(h);
  }

  /**
   * Every entry of a project's team table is a team among `teams` named
   * after the project and one of its groups, with that group's role.
   */
  ghost predicate Named(table: Dict<nat, Role>, project: string, teams: seq<TeamRecord>) {
    forall e :: e in table ==> exists g :: TeamRecord(e.0, TeamName(project, g)) in teams && e.1 == RoleOf(g)
  }

  /** A table stays named when the organization's teams only grow. */
  lemma NamedGrows(table: Dict<nat, Role>, project: string, teams: seq<TeamRecord>, more: seq<TeamRecord>)
    requires Named(table, project, teams) && forall t :: t in teams ==> t in more
    ensures Named(table, project, more)
  {
    forall e | e in table
      ensures exists g :: TeamRecord(e.0, TeamName(project, g)) in more && e.1 == RoleOf(g)
    {
      var g :| TeamRecord(e.0, TeamName(project, g)) in teams && e.1 == RoleOf(g);
      assert TeamRecord(e.0, TeamName(project, g)) in more;
    }
  }

  /** Recording the team of group `g` with the group's role keeps a table named. */
  lemma NamedPut(table: Dict<nat, Role>, project: string, teams: seq<TeamRecord>, teamId: nat, g: Group)
    requires Named(table, project, teams) && TeamRecord(teamId, TeamName(project, g)) in teams
    ensures Named(Put(table, teamId, RoleOf(g)), project, teams)
  {
    PutEntries(table, teamId, RoleOf(g));
    forall e | e in Put(table, teamId, RoleOf(g))
      ensures exists h :: TeamRecord(e.0, TeamName(project, h)) in teams && e.1 == RoleOf(h)
    {
      if e == (teamId, RoleOf(g)) {
        assert TeamRecord(e.0, TeamName(project, g)) in teams;
      }
    }
  }

  /** The team tables `ts` and `ts0` hold the same projects and tables, except for `project`. */
  ghost predicate SameTablesBut(ts: map<string, Dict<nat, Role>>, ts0: map<string, Dict<nat, Role>>, project: string) {
    forall p :: p != project ==> (p in ts <==> p in ts0) && (p in ts ==> ts[p] == ts0[p])
  }

  /** A user in the flattened teams is in one of them. */
  lemma {:induction false} FlattenHas(ts: seq<Team>, x: string)
    requires x in Flatten(ts)
    ensures exists k :: 0 <= k < |ts| && x in ts[k].users
  {
    if x !in ts[0].users {
      FlattenHas(ts[1..], x);
      var k :| 0 <= k < |ts[1..]| && x in ts[1..][k].users;
      assert x in ts[k + 1].users;
    }
  }

  /** Every user of a project is in one of the teams `list_teams` yields. */
  lemma TeamsCover(u: Users, x: string)
    requires x in AllUsers(u)
    ensures exists k :: 0 <= k < |Teams(u)| && x in Teams(u)[k].users
  {
    TeamsOfShape(Tiers(u));
    AllUsersFlat(u);
    FlattenHas(Teams(u), x);
  }

  /** `ms` keeps every entry of `before`. */
  ghost predicate Extends(ms: map<string, Member>, before: map<string, Member>) {
    forall e :: e in before ==> e in ms && ms[e] == before[e]
  }

  lemma ExtendsTrans(ms: map<string, Member>, middle: map<string, Member>, before: map<string, Member>)
    requires Extends(ms, middle) && Extends(middle, before)
    ensures Extends(ms, before)
  {
  }

  /**
   * `verified` holds exactly the member identifiers that `ms` gives the
   * users: every user has one in it, and each of its elements is one.
   */
  ghost predicate Verified(ms: map<string, Member>, users: seq<string>, verified: set<nat>) {
    && (forall u :: u in users ==> u in ms && ms[u].memberId in verified)
    && (forall x :: x in verified ==> exists u :: u in users && u in ms && ms[u].memberId == x)
  }

  /** Adding the next user's identifier keeps `verified` exact. */
  lemma VerifiedStep(ms: map<string, Member>, before: map<string, Member>, users: seq<string>, i: nat, verified: set<nat>)
    requires i < |users| && Verified(before, users[..i], verified)
    requires Extends(ms, before) && users[i] in ms
    ensures Verified(ms, users[..i + 1], verified + {ms[users[i]].memberId})
  {
    assert users[..i + 1] == users[..i] + [users[i]];
  }

  class Organization {
    const tower: Tower
    const fullName: string
    const name: string
    const useTeams: bool
    /** The users of each project, by project name. */
    const usersPerProject: Dict<string, Users>
    var id: nat
    /** The team identifiers of each project and the role each team gets. */
    var teamIdsPerProject: map<string, Dict<nat, Role>>
    /** The member record of each email added so far. */
    var members: map<string, Member>
    /** The workspace of each project. */
    var workspaces: map<string, Workspace>

    constructor (tower: Tower, usersPerProject: Dict<string, Users>, fullName: string, useTeams: bool)
      ensures this.tower == tower && this.usersPerProject == usersPerProject
      ensures this.fullName == fullName && this.useTeams == useTeams && name == ValidName(fullName)
      ensures id == 0 && teamIdsPerProject == map[] && members == map[] && workspaces == map[]
    {
      this.tower := tower;
      this.usersPerProject := usersPerProject;
      this.fullName := fullName;
      this.useTeams := useTeams;
      name := ValidName(fullName);
      id := 0;
      teamIdsPerProject := map[];
      members := map[];
      workspaces := map[];
    }

    /** Each cached member is the organization's member with that email. */
    ghost predicate Cached()
      reads this`members, this`id, tower`members
    {
      forall e :: e in members ==> members[e].email == e && members[e] in At(tower.members, id)
    }

    /** `create`: the organization with this full name, created if missing. */
    method Create() returns (org: Org)
      requires tower.Valid()
      modifies tower`orgs, tower`nextId
      ensures tower.Valid()
      ensures FindOrg(tower.orgs, fullName) == Some(org)
      ensures match FindOrg(old(tower.orgs), fullName)
        case Some(o) =>
          org == o && tower.orgs == old(tower.orgs) && tower.nextId == old(tower.nextId)
        case None =>
          && org == Org(old(tower.nextId), name, fullName)
          && tower.orgs == old(tower.orgs) + [org]
          && tower.nextId == old(tower.nextId) + 1
    {
      var listing := tower.orgs;
      for i := 0 to |listing|
        invariant FindOrg(listing, fullName) == FindOrg(listing[i..], fullName)
      {
        assert listing[i..][1..] == listing[i + 1..];
        if listing[i].fullName == fullName {
          return listing[i];
        }
      }
      org := tower.PostOrg(name, fullName);
      FindOrgAppend(listing, org);
    }

    /**
     * `add_member`: adds the email as a member, or finds the member it
     * already is, and caches the member under the email.
     */
    method AddMember(user: string) returns (member: Member)
      requires tower.Valid() && Cached()
      modifies this`members, tower`members, tower`nextId
      ensures tower.Valid() && Cached()
      ensures members == old(members)[user := member]
      ensures user in old(members) ==> member == old(members)[user]
      ensures Extends(members, old(members)) && user in members && members[user] == member
      ensures FindEmail(At(tower.members, id), user) == Some(member)
      ensures match FindEmail(old(At(tower.members, id)), user)
        case Some(m) =>
          member == m && tower.members == old(tower.members) && tower.nextId == old(tower.nextId)
        case None =>
          && member == Member(old(tower.nextId), user, tower.userNameOf(user))
          && tower.members == old(tower.members)[id := old(At(tower.members, id)) + [member]]
          && tower.nextId == old(tower.nextId) + 1
    {
      member := RequestMember(user);
      if user in members {
        FindEmailIs(At(tower.members, id), members[user]);
      }
      members := members[user := member];
    }

    /**
     * The request of `add_member`: adds the email as a member; when the
     * server says the user already is one, finds the member by the user name
     * quoted in the reply.
     */
    method RequestMember(user: string) returns (member: Member)
      requires tower.Valid()
      modifies tower`members, tower`nextId
      ensures tower.Valid()
      ensures FindEmail(At(tower.members, id), user) == Some(member)
      ensures forall m :: m in old(At(tower.members, id)) ==> m in At(tower.members, id)
      ensures match FindEmail(old(At(tower.members, id)), user)
        case Some(m) =>
          member == m && tower.members == old(tower.members) && tower.nextId == old(tower.nextId)
        case None =>
          && member == Member(old(tower.nextId), user, tower.userNameOf(user))
          && tower.members == old(tower.members)[id := old(At(tower.members, id)) + [member]]
          && tower.nextId == old(tower.nextId) + 1
    {
      ghost var found := FindEmail(At(tower.members, id), user);
      if found.Some? {
        AlreadyMemberQuotes(found.value.userName);
        AlreadyMemberSays(found.value.userName);
      }
      var reply := tower.AddOrgMember(id, user);
      if reply.MemberMessage? && Contains(reply.message, "already a member") {
        var userName := Split(reply.message, Quote)[1];
        var last := FindMemberNamed(userName);
        // The member the server means is listed under that user name.
        assert found.value in At(tower.members, id);
        member := last.value;
        assert tower.userNameOf(member.email) == tower.userNameOf(found.value.email);
      } else {
        member := reply.member;
      }
      FindEmailIs(At(tower.members, id), member);
    }

    /** The search of `add_member`: the last listed member with the given user name. */
    method FindMemberNamed(userName: string) returns (last: Option<Member>)
      ensures last == LastNamed(At(tower.members, id), userName)
    {
      var listing := PagedList(At(tower.members, id));
      last := None;
      for i := 0 to |listing|
        invariant last == LastNamed(listing[..i], userName)
      {
        LastNamedStep(listing, i, userName);
        if listing[i].userName == userName {
          last := Some(listing[i]);
        }
      }
      assert listing[..|listing|] == listing;
    }

    /**
     * `add_member_to_team`: adds the member with this email to the team; when
     * the server says it is already there, the member is looked up with
     * `AddMember`. A user who is not a member of the organization gets no
     * `member` in the reply.
     */
    method AddMemberToTeam(teamId: nat, user: string) returns (r: Result<nat, Error>)
      requires tower.Valid() && Cached()
      modifies this`members, tower`members, tower`nextId, tower`teamMembers
      ensures tower.Valid() && Cached()
      ensures tower.members == old(tower.members) && tower.nextId == old(tower.nextId)
      ensures Extends(members, old(members))
      ensures match FindEmail(At(tower.members, id), user)
        case None =>
          r == Err(KeyError("member")) && tower.teamMembers == old(tower.teamMembers) && members == old(members)
        case Some(m) =>
          && r == Ok(m.memberId)
          && tower.teamMembers == Joined(old(tower.teamMembers), teamId, m.memberId)
          && members == if m.memberId in old(At(tower.teamMembers, teamId)) then old(members)[user := m] else old(members)
    {
      TeamMessages();
      var reply := tower.AddTeamMember(id, teamId, user);
      if reply.MemberMessage? && Contains(reply.message, "already") {
        var member := AddMember(user);
        r := Ok(member.memberId);
      } else if reply.NewMember? {
        r := Ok(reply.member.memberId);
      } else {
        r := Err(KeyError("member"));
      }
    }

    /** `remove_member_from_team`. */
    method RemoveMemberFromTeam(teamId: nat, memberId: nat)
      requires tower.Valid()
      modifies tower`teamMembers
      ensures tower.Valid()
      ensures tower.teamMembers == old(tower.teamMembers)[teamId := Without(old(At(tower.teamMembers, teamId)), memberId)]
    {
      tower.DeleteTeamMember(teamId, memberId);
    }

    /** `create_team`: the team with this name, created if missing. */
    method CreateTeam(teamName: string) returns (teamId: nat)
      requires tower.Valid()
      modifies tower`teams, tower`teamMembers, tower`nextId
      ensures tower.Valid()
      ensures TeamRecord(teamId, teamName) in At(tower.teams, id)
      ensures forall t :: t in old(At(tower.teams, id)) ==> t in At(tower.teams, id)
      ensures match FindTeam(old(At(tower.teams, id)), teamName)
        case Some(t) =>
          && teamId == t.teamId
          && tower.teams == old(tower.teams) && tower.teamMembers == old(tower.teamMembers)
          && tower.nextId == old(tower.nextId)
        case None =>
          && teamId == old(tower.nextId)
          && tower.teams == old(tower.teams)[id := old(At(tower.teams, id)) + [TeamRecord(teamId, teamName)]]
          && tower.teamMembers == old(tower.teamMembers)[teamId := []]
          && tower.nextId == old(tower.nextId) + 1
    {
      var listing := PagedList(At(tower.teams, id));
      for i := 0 to |listing|
        invariant FindTeam(listing, teamName) == FindTeam(listing[i..], teamName)
      {
        assert listing[i..][1..] == listing[i + 1..];
        if listing[i].name == teamName {
          return listing[i].teamId;
        }
      }
      var team := tower.PostTeam(id, teamName);
      teamId := team.teamId;
    }

    /** `list_team_members`: the member identifiers of the team. */
    method ListTeamMembers(teamId: nat) returns (ids: seq<nat>)
      ensures ids == At(tower.teamMembers, teamId)
    {
      ids := PagedList(At(tower.teamMembers, teamId));
    }

    /**
     * The first loop of a group in `populate`: adds each user as a member,
     * collects the member identifiers, and adds each to the team when teams
     * are used.
     */
    method AddMembers(users: seq<string>, teamId: Option<nat>) returns (verified: set<nat>)
      requires tower.Valid() && Cached()
      modifies this`members, tower`members, tower`nextId, tower`teamMembers
      ensures tower.Valid() && Cached()
      ensures Extends(members, old(members))
      ensures Verified(members, users, verified)
      ensures teamId.None? ==> tower.teamMembers == old(tower.teamMembers)
      ensures teamId.Some? ==>
        && (forall x :: x in verified ==> x in At(tower.teamMembers, teamId.value))
        && (forall x :: x in At(tower.teamMembers, teamId.value) ==> x in old(At(tower.teamMembers, teamId.value)) || x in verified)
        && AgreeBut(tower.teamMembers, old(tower.teamMembers), teamId.value)
    {
      verified := {};
      for i := 0 to |users|
        invariant tower.Valid() && Cached()
        invariant Extends(members, old(members))
        invariant Verified(members, users[..i], verified)
        invariant teamId.None? ==> tower.teamMembers == old(tower.teamMembers)
        invariant teamId.Some? ==>
          && (forall x :: x in verified ==> x in At(tower.teamMembers, teamId.value))
          && (forall x :: x in At(tower.teamMembers, teamId.value) ==> x in old(At(tower.teamMembers, teamId.value)) || x in verified)
          && AgreeBut(tower.teamMembers, old(tower.teamMembers), teamId.value)
      {
        ghost var before, cached := tower.teamMembers, members;
        var memberId := AddGroupMember(users[i], teamId);
        VerifiedStep(members, cached, users, i, verified);
        ExtendsTrans(members, cached, old(members));
        verified := verified + {memberId};
        if teamId.Some? {
          AgreeButTrans(tower.teamMembers, before, old(tower.teamMembers), teamId.value);
        }
      }
      assert users[..|users|] == users;
    }

    /**
     * One user of a group in `populate`: adds it as a member and, when teams
     * are used, to the team.
     */
    method AddGroupMember(user: string, teamId: Option<nat>) returns (memberId: nat)
      requires tower.Valid() && Cached()
      modifies this`members, tower`members, tower`nextId, tower`teamMembers
      ensures tower.Valid() && Cached()
      ensures Extends(members, old(members))
      ensures user in members && members[user].memberId == memberId
      ensures teamId.None? ==> tower.teamMembers == old(tower.teamMembers)
      ensures teamId.Some? ==>
        && (forall x :: x in At(tower.teamMembers, teamId.value) <==> x in old(At(tower.teamMembers, teamId.value)) || x == memberId)
        && AgreeBut(tower.teamMembers, old(tower.teamMembers), teamId.value)
    {
      var member := AddMember(user);
      memberId := member.memberId;
      if teamId.Some? {
        ghost var cached := members;
        var added := AddMemberToTeam(teamId.value, user);
        ExtendsTrans(members, cached, old(members));
      }
    }

    /** The second loop of a group in `populate`: removes the team members that were not verified. */
    method PruneTeam(teamId: nat, verified: set<nat>)
      requires tower.Valid()
      modifies tower`teamMembers
      ensures tower.Valid()
      ensures forall x :: x in At(tower.teamMembers, teamId) <==> x in old(At(tower.teamMembers, teamId)) && x in verified
      ensures AgreeBut(tower.teamMembers, old(tower.teamMembers), teamId)
    {
      var ids := ListTeamMembers(teamId);
      for i := 0 to |ids|
        invariant tower.Valid()
        invariant forall x :: x in At(tower.teamMembers, teamId) <==> x in ids && (x in verified || x !in ids[..i])
        invariant AgreeBut(tower.teamMembers, old(tower.teamMembers), teamId)
      {
        assert ids[..i + 1] == ids[..i] + [ids[i]];
        if ids[i] !in verified {
          ghost var before := tower.teamMembers;
          RemoveMemberFromTeam(teamId, ids[i]);
          AgreeButUpdate(before, old(tower.teamMembers), teamId, At(tower.teamMembers, teamId));
        }
      }
      assert ids[..|ids|] == ids;
    }

    /**
     * One group of a project in `populate`: its team when teams are used,
     * its users as members (and team members), and the team pruned to
     * exactly those users.
     */
    method PopulateTeam(project: string, team: Team) returns (teamId: Option<nat>)
      requires tower.Valid() && Cached() && project in teamIdsPerProject && team.role == RoleOf(team.group)
      modifies this`members, this`teamIdsPerProject
      modifies tower`members, tower`nextId, tower`teams, tower`teamMembers
      ensures tower.Valid() && Cached()
      ensures Extends(members, old(members))
      ensures forall u :: u in team.users ==> u in members
      ensures teamId.Some? <==> useTeams
      ensures forall t :: t in old(At(tower.teams, id)) ==> t in At(tower.teams, id)
      ensures project in teamIdsPerProject
      ensures useTeams && Named(old(teamIdsPerProject[project]), project, old(At(tower.teams, id))) ==>
        Named(teamIdsPerProject[project], project, At(tower.teams, id))
      ensures !useTeams ==>
        && teamIdsPerProject == old(teamIdsPerProject)
        && tower.teams == old(tower.teams) && tower.teamMembers == old(tower.teamMembers)
      ensures teamId.Some? ==>
        && TeamRecord(teamId.value, TeamName(project, team.group)) in At(tower.teams, id)
        && teamIdsPerProject == old(teamIdsPerProject)[project := Put(old(teamIdsPerProject)[project], teamId.value, team.role)]
        && AgreeBut(tower.teamMembers, old(tower.teamMembers), teamId.value)
        && (forall u :: u in team.users ==> members[u].memberId in At(tower.teamMembers, teamId.value))
        && (forall x :: x in At(tower.teamMembers, teamId.value) ==>
              exists u :: u in team.users && u in members && members[u].memberId == x)
    {
      teamId := RecordTeam(project, team);
      ghost var recorded := tower.teamMembers;
      var verified := AddMembers(team.users, teamId);
      if useTeams {
        ghost var added := tower.teamMembers;
        PruneTeam(teamId.value, verified);
        AgreeButTrans(added, recorded, old(tower.teamMembers), teamId.value);
        AgreeButTrans(tower.teamMembers, added, old(tower.teamMembers), teamId.value);
      }
    }

    /** The head of a group in `populate`: when teams are used, gets or creates its team and records its role. */
    method RecordTeam(project: string, team: Team) returns (teamId: Option<nat>)
      requires tower.Valid() && project in teamIdsPerProject && team.role == RoleOf(team.group)
      modifies this`teamIdsPerProject, tower`teams, tower`teamMembers, tower`nextId
      ensures tower.Valid()
      ensures teamId.Some? <==> useTeams
      ensures forall t :: t in old(At(tower.teams, id)) ==> t in At(tower.teams, id)
      ensures project in teamIdsPerProject
      ensures useTeams && Named(old(teamIdsPerProject[project]), project, old(At(tower.teams, id))) ==>
        Named(teamIdsPerProject[project], project, At(tower.teams, id))
      ensures !useTeams ==>
        && teamIdsPerProject == old(teamIdsPerProject)
        && tower.teams == old(tower.teams) && tower.teamMembers == old(tower.teamMembers) && tower.nextId == old(tower.nextId)
      ensures teamId.Some? ==>
        && TeamRecord(teamId.value, TeamName(project, team.group)) in At(tower.teams, id)
        && teamIdsPerProject == old(teamIdsPerProject)[project := Put(old(teamIdsPerProject)[project], teamId.value, team.role)]
        && AgreeBut(tower.teamMembers, old(tower.teamMembers), teamId.value)
    {
      teamId := None;
      if useTeams {
        ghost var table, known := teamIdsPerProject[project], At(tower.teams, id);
        var created := CreateTeam(TeamName(project, team.group));
        teamId := Some(created);
        if Named(table, project, known) {
          NamedGrows(table, project, known, At(tower.teams, id));
          NamedPut(table, project, At(tower.teams, id), created, team.group);
        }
        teamIdsPerProject := teamIdsPerProject[project := Put(teamIdsPerProject[project], created, team.role)];
      }
    }

    /**
     * `populate`: for every project, an empty team table, then every group
     * of `list_teams` populated in turn.
     */
    method Populate()
      requires tower.Valid() && Cached()
      modifies this`members, this`teamIdsPerProject
      modifies tower`members, tower`nextId, tower`teams, tower`teamMembers
      ensures tower.Valid() && Cached()
      ensures forall i :: 0 <= i < |usersPerProject| ==> usersPerProject[i].0 in teamIdsPerProject
      ensures forall i, u :: 0 <= i < |usersPerProject| && u in AllUsers(usersPerProject[i].1) ==> u in members
      ensures !useTeams ==> forall i :: 0 <= i < |usersPerProject| ==> teamIdsPerProject[usersPerProject[i].0] == []
      ensures useTeams ==> forall i :: 0 <= i < |usersPerProject| ==>
        Named(teamIdsPerProject[usersPerProject[i].0], usersPerProject[i].0, At(tower.teams, id))
    {
      for i := 0 to |usersPerProject|
        invariant tower.Valid() && Cached()
        invariant forall k :: 0 <= k < i ==> usersPerProject[k].0 in teamIdsPerProject
        invariant forall k, u :: 0 <= k < i && u in AllUsers(usersPerProject[k].1) ==> u in members
        invariant !useTeams ==> forall k :: 0 <= k < i ==> teamIdsPerProject[usersPerProject[k].0] == []
        invariant useTeams ==> forall k :: 0 <= k < i ==>
          Named(teamIdsPerProject[usersPerProject[k].0], usersPerProject[k].0, At(tower.teams, id))
      {
        var (project, projectUsers) := usersPerProject[i];
        ghost var tables, known := teamIdsPerProject, At(tower.teams, id);
        PopulateProject(project, projectUsers);
        forall k | 0 <= k < i && useTeams && usersPerProject[k].0 != project
          ensures Named(teamIdsPerProject[usersPerProject[k].0], usersPerProject[k].0, At(tower.teams, id))
        {
          NamedGrows(tables[usersPerProject[k].0], usersPerProject[k].0, known, At(tower.teams, id));
        }
      }
    }

    /** The body of the project loop of `populate`: one project's teams and members. */
    method PopulateProject(project: string, projectUsers: Users)
      requires tower.Valid() && Cached()
      modifies this`members, this`teamIdsPerProject
      modifies tower`members, tower`nextId, tower`teams, tower`teamMembers
      ensures tower.Valid() && Cached()
      ensures Extends(members, old(members))
      ensures forall u :: u in AllUsers(projectUsers) ==> u in members
      ensures project in teamIdsPerProject && SameTablesBut(teamIdsPerProject, old(teamIdsPerProject), project)
      ensures !useTeams ==> teamIdsPerProject[project] == []
      ensures useTeams ==> Named(teamIdsPerProject[project], project, At(tower.teams, id))
      ensures forall t :: t in old(At(tower.teams, id)) ==> t in At(tower.teams, id)
    {
      teamIdsPerProject := teamIdsPerProject[project := []];
      var teams := ListTeams(projectUsers);
      for j := 0 to |teams|
        invariant tower.Valid() && Cached()
        invariant GroupsDone(project, teams, j, old(members), old(teamIdsPerProject), old(At(tower.teams, id)))
      {
        TeamRole(projectUsers, j);
        PopulateGroup(project, teams, j, old(members), old(teamIdsPerProject), old(At(tower.teams, id)));
      }
      forall u | u in AllUsers(projectUsers)
        ensures u in members
      {
        TeamsCover(projectUsers, u);
      }
    }

    /**
     * The groups before `j` of a project's loop are done: the member cache
     * only grew, from `members0`, and holds their users; only the project's
     * table changed, from `tables0`, and names its teams when teams are used
     * (it stays empty otherwise); the teams `known0` are still listed.
     */
    ghost predicate GroupsDone(project: string, teams: seq<Team>, j: nat, members0: map<string, Member>,
                               tables0: map<string, Dict<nat, Role>>, known0: seq<TeamRecord>)
      requires j <= |teams|
      reads this`members, this`teamIdsPerProject, this`id, tower`teams
    {
      && Extends(members, members0)
      && project in teamIdsPerProject && SameTablesBut(teamIdsPerProject, tables0, project)
      && (forall k, u :: 0 <= k < j && u in teams[k].users ==> u in members)
      && (!useTeams ==> teamIdsPerProject[project] == [])
      && (useTeams ==> Named(teamIdsPerProject[project], project, At(tower.teams, id)))
      && (forall t :: t in known0 ==> t in At(tower.teams, id))
    }

    /** Round `j` of a project's group loop in `populate`: the group's team, populated. */
    method PopulateGroup(project: string, teams: seq<Team>, j: nat, ghost members0: map<string, Member>,
                         ghost tables0: map<string, Dict<nat, Role>>, ghost known0: seq<TeamRecord>)
      requires tower.Valid() && Cached() && j < |teams| && teams[j].role == RoleOf(teams[j].group)
      requires GroupsDone(project, teams, j, members0, tables0, known0)
      modifies this`members, this`teamIdsPerProject
      modifies tower`members, tower`nextId, tower`teams, tower`teamMembers
      ensures tower.Valid() && Cached()
      ensures GroupsDone(project, teams, j + 1, members0, tables0, known0)
    {
      ghost var cached := members;
      var teamId := PopulateTeam(project, teams[j]);
      ExtendsTrans(members, cached, members0);
    }

    /**
     * `create_workspaces`: sets up one workspace per project, given its
     * users, or its teams when teams are used, and records it.
     */
    method CreateWorkspaces() returns (r: Result<(), Error>)
      requires tower.Valid() && DistinctKeys(usersPerProject)
      modifies this`workspaces
      modifies tower`workspaces, tower`participants, tower`computeEnvs, tower`credentials, tower`primary, tower`nextId
      ensures tower.Valid()
      ensures r.Ok? ==> forall i :: 0 <= i < |usersPerProject| ==> Hosted(usersPerProject[i].0, usersPerProject[i].1)
      ensures r.Ok? ==> forall i :: 0 <= i < |usersPerProject| ==>
        FindWorkspace(At(tower.workspaces, id), ValidName(usersPerProject[i].0)).Some?
    {
      for i := 0 to |usersPerProject|
        invariant tower.Valid() && HostedUpTo(i)
      {
        r := HostNext(i);
        if r.Err? {
          return;
        }
      }
      r := Ok(());
      forall i | 0 <= i < |usersPerProject|
        ensures FindWorkspace(At(tower.workspaces, id), ValidName(usersPerProject[i].0)).Some?
      {
        FindWorkspaceLists(At(tower.workspaces, id), ValidName(usersPerProject[i].0));
      }
    }

    /** The projects before `n` have their workspaces recorded, serving them, and listed on the server. */
    ghost predicate HostedUpTo(n: nat)
      requires n <= |usersPerProject|
      reads this`workspaces, this`id, this`members, this`teamIdsPerProject, tower`workspaces
    {
      forall k :: 0 <= k < n ==>
        Hosted(usersPerProject[k].0, usersPerProject[k].1) && Lists(At(tower.workspaces, id), ValidName(usersPerProject[k].0))
    }

    /** Round `i` of `create_workspaces`: hosts project `i` and keeps the earlier projects hosted. */
    method HostNext(i: nat) returns (r: Result<(), Error>)
      requires tower.Valid() && DistinctKeys(usersPerProject) && i < |usersPerProject| && HostedUpTo(i)
      modifies this`workspaces
      modifies tower`workspaces, tower`participants, tower`computeEnvs, tower`credentials, tower`primary, tower`nextId
      ensures tower.Valid()
      ensures r.Ok? ==> HostedUpTo(i + 1)
    {
      var (project, projectUsers) := usersPerProject[i];
      r := HostWorkspace(project, projectUsers);
      if r.Err? {
        return;
      }
      HostedKept(i);
    }

    /**
     * Hosting project `i` keeps the earlier projects hosted: their workspaces
     * are recorded under other names, and the server's listing only grows.
     */
    twostate lemma HostedKept(i: nat)
      requires DistinctKeys(usersPerProject) && i < |usersPerProject| && old(HostedUpTo(i))
      requires old(id) == id && old(members) == members && old(teamIdsPerProject) == teamIdsPerProject
      requires var project := usersPerProject[i].0;
        && project in workspaces && workspaces == old(workspaces)[project := workspaces[project]]
        && Hosted(project, usersPerProject[i].1) && Lists(At(tower.workspaces, id), ValidName(project))
      requires old(At(tower.workspaces, id)) <= At(tower.workspaces, id)
      ensures HostedUpTo(i + 1)
    {
      var project := usersPerProject[i].0;
      forall k | 0 <= k < i
        ensures Hosted(usersPerProject[k].0, usersPerProject[k].1) && Lists(At(tower.workspaces, id), ValidName(usersPerProject[k].0))
      {
        assert usersPerProject[k].0 != project && workspaces[usersPerProject[k].0] == old(workspaces)[usersPerProject[k].0];
        ListsGrows(old(At(tower.workspaces, id)), At(tower.workspaces, id), ValidName(usersPerProject[k].0));
      }
    }

    /** One round of `create_workspaces`: the project's workspace, set up and recorded. */
    method HostWorkspace(project: string, users: Users) returns (r: Result<(), Error>)
      requires tower.Valid()
      modifies this`workspaces
      modifies tower`workspaces, tower`participants, tower`computeEnvs, tower`credentials, tower`primary, tower`nextId
      ensures tower.Valid()
      ensures useTeams && project !in teamIdsPerProject ==> r == Err(KeyError(project))
      ensures r.Ok? ==> project in workspaces && workspaces == old(workspaces)[project := workspaces[project]]
      ensures r.Ok? ==> Hosted(project, users) && Lists(At(tower.workspaces, id), ValidName(project))
      ensures r.Ok? ==> workspaces[project].SetUp(old(tower.participants), old(tower.computeEnvs), old(tower.credentials), old(tower.primary))
      ensures old(At(tower.workspaces, id)) <= At(tower.workspaces, id)
    {
      var ws := CreateWorkspace(project, users);
      if ws.Err? {
        return Err(ws.error);
      }
      Record(project, ws.value);
      r := Ok(());
    }

    /** `self.workspaces[project] = ...`: records the project's workspace. */
    method Record(project: string, w: Workspace)
      modifies this`workspaces
      ensures workspaces == old(workspaces)[project := w]
    {
      workspaces := workspaces[project := w];
    }

    /** The body of `create_workspaces` for one project: a new workspace, set up. */
    method CreateWorkspace(project: string, users: Users) returns (r: Result<Workspace, Error>)
      requires tower.Valid()
      modifies tower`workspaces, tower`participants, tower`computeEnvs, tower`credentials, tower`primary, tower`nextId
      ensures tower.Valid()
      ensures useTeams && project !in teamIdsPerProject ==> r == Err(KeyError(project))
      ensures r.Ok? ==> fresh(r.value) && Serves(r.value, project, users)
      ensures r.Ok? ==>
        && FindWorkspace(At(tower.workspaces, id), ValidName(project)).Some?
        && FindWorkspace(At(tower.workspaces, id), ValidName(project)).value.id == r.value.id
        && Lists(At(tower.workspaces, id), ValidName(project))
      ensures r.Ok? ==> r.value.SetUp(old(tower.participants), old(tower.computeEnvs), old(tower.credentials), old(tower.primary))
      ensures old(At(tower.workspaces, id)) <= At(tower.workspaces, id)
    {
      var ws: Workspace;
      if useTeams {
        if project !in teamIdsPerProject {
          return Err(KeyError(project));
        }
        ws := new Workspace(tower, id, members, project, None, Some(teamIdsPerProject[project]));
      } else {
        ws := new Workspace(tower, id, members, project, Some(users), None);
      }
      var setup := ws.Setup();
      if setup.Err? {
        return Err(setup.error);
      }
      FindWorkspaceLists(At(tower.workspaces, id), ValidName(project));
      r := Ok(ws);
    }

    /** A workspace is recorded for `project`, and serves it. */
    ghost predicate Hosted(project: string, users: Users)
      reads this`workspaces, this`id, this`members, this`teamIdsPerProject
    {
      project in workspaces && Serves(workspaces[project], project, users)
    }

    /**
     * Workspace `w` belongs to this organization and was given the project's
     * users, or its teams when teams are used.
     */
    ghost predicate Serves(w: Workspace, project: string, users: Users)
      reads this`id, this`members, this`teamIdsPerProject
    {
      && w.tower == tower && w.orgId == id
      && w.stackName == project && w.name == ValidName(project) && w.orgMembers == members
      && if useTeams then
           && project in teamIdsPerProject
           && w.users.None? && w.teams == Some(teamIdsPerProject[project])
         else
           w.users == Some(users) && w.teams.None?
    }

    /**
     * The rest of the constructor: gets or creates the organization, adds the
     * members (and teams), and sets up the workspaces.
     */
    method Setup() returns (r: Result<(), Error>)
      requires tower.Valid() && members == map[] && DistinctKeys(usersPerProject)
      modifies this`id, this`members, this`teamIdsPerProject, this`workspaces
      modifies tower`orgs, tower`members, tower`teams, tower`teamMembers, tower`workspaces
      modifies tower`participants, tower`computeEnvs, tower`credentials, tower`primary, tower`nextId
      ensures tower.Valid() && Cached()
      ensures FindOrg(tower.orgs, fullName).Some? && FindOrg(tower.orgs, fullName).value.orgId == id
      ensures forall i, u :: 0 <= i < |usersPerProject| && u in AllUsers(usersPerProject[i].1) ==> u in members
      ensures forall i :: 0 <= i < |usersPerProject| ==> usersPerProject[i].0 in teamIdsPerProject
      ensures useTeams ==> forall i :: 0 <= i < |usersPerProject| ==>
        Named(teamIdsPerProject[usersPerProject[i].0], usersPerProject[i].0, At(tower.teams, id))
      ensures r.Ok? ==> forall i :: 0 <= i < |usersPerProject| ==> Hosted(usersPerProject[i].0, usersPerProject[i].1)
      ensures r.Ok? ==> forall i :: 0 <= i < |usersPerProject| ==>
        FindWorkspace(At(tower.workspaces, id), ValidName(usersPerProject[i].0)).Some?
    {
      var org := Create();
      id := org.orgId;
      Populate();
      r := CreateWorkspaces();
    }
  }
}
