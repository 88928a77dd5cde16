/**
 * Nextflow Tower as the reconciler sees it through its REST endpoints: an
 * honest server holding organizations, members, teams, workspaces,
 * participants, credentials and compute environments. Every record it
 * creates takes the next value of one identifier counter.
 */
module Remote {
  import opened Wrappers
  import opened Roles

  /** The version suffix of the compute environments the reconciler maintains. */
  const CeVersion: string := "v6"

  /** The platform of the compute environments the reconciler creates. */
  const AwsBatch: string := "aws-batch"

  /** The provider of the credentials the reconciler creates. */
  const Aws: string := "aws"

  datatype Status = Creating | Available | Invalid | Errored

  datatype Org = Org(orgId: nat, name: string, fullName: string)

  datatype Member = Member(memberId: nat, email: string, userName: string)

  datatype TeamRecord = TeamRecord(teamId: nat, name: string)

  datatype WorkspaceRecord = WorkspaceRecord(id: nat, name: string, fullName: string)

  /** A workspace participant stands for an organization member or for a team. */
  datatype Participant = Participant(participantId: nat, memberId: Option<nat>, teamId: Option<nat>, role: Role)

  datatype Credentials = Credentials(id: nat, name: string, provider: string, deleted: bool)

  /** The provisioning model of a compute environment: "SPOT" or "EC2" (on demand). */
  datatype PricingModel = Spot | Ec2

  datatype ComputeEnv = ComputeEnv(id: nat, name: string, platform: string, status: Status)

  /** What the reconciler posts to create a compute environment. */
  datatype ComputeEnvRequest = ComputeEnvRequest(name: string, model: PricingModel, credentialsId: nat)

  /** Reply to adding a member: the member, or the server's message. */
  datatype MemberReply = NewMember(member: Member) | MemberMessage(message: string)

  /** Reply to adding a participant: the participant, or "Already a participant". */
  datatype ParticipantReply = NewParticipant(participant: Participant) | AlreadyParticipant

  /** The message for an email that already belongs to a member. */
  function AlreadyMember(userName: string): string {
    "User " + [Quote] + userName + [Quote] + " is already a member"
  }

  const Quote: char := '\''

  /** The message for a member that already belongs to a team. */
  const AlreadyInTeam: string := "The member is " + "already" + " associated with the team"

  /** The message for a team addition naming no member of the organization. */
  const NotAMember: string := "User not found"

  /** The message for the deletion of a compute environment that is running jobs. */
  const ActiveJobs: string := "Compute environment has active jobs"

  /** The list a map holds under `k`, empty when it holds none. */
  function At<V>(m: map<nat, seq<V>>, k: nat): seq<V> {
    if k in m then m[k] else []
  }

  /** The first member with the given email. */
  function FindEmail(ms: seq<Member>, email: string): (r: Option<Member>)
    ensures r.Some? ==> r.value in ms && r.value.email == email
    ensures r.Some? ==> exists i :: 0 <= i < |ms| && ms[i] == r.value && forall j :: 0 <= j < i ==> ms[j].email != email
    ensures r.None? ==> forall m :: m in ms ==> m.email != email
  {
    if ms == [] then None
    else if ms[0].email == email then Some(ms[0])
    else FindEmail(ms[1..], email)
  }

  /** No two members share an email. */
  predicate DistinctEmails(ms: seq<Member>) {
    forall i, j :: 0 <= i < j < |ms| ==> ms[i].email != ms[j].email
  }

  /** `xs` without any occurrence of `x`. */
  function Without(xs: seq<nat>, x: nat): (r: seq<nat>)
    ensures forall y :: y in r <==> y in xs && y != x
  {
    if xs == [] then []
    else (if xs[0] == x then [] else [xs[0]]) + Without(xs[1..], x)
  }

  /** The compute environments of `ces` whose identifier is not in `gone`, in order. */
  function Survivors(ces: seq<ComputeEnv>, gone: set<nat>): (r: seq<ComputeEnv>)
    ensures forall ce :: ce in r <==> ce in ces && ce.id !in gone
  {
    if ces == [] then []
    else (if ces[0].id in gone then [] else [ces[0]]) + Survivors(ces[1..], gone)
  }

  lemma SurvivorsNone(ces: seq<ComputeEnv>)
    ensures Survivors(ces, {}) == ces
  {
  }

  /** Removing two sets of identifiers one after the other removes their union. */
  lemma {:induction false} SurvivorsTwice(ces: seq<ComputeEnv>, a: set<nat>, b: set<nat>)
    ensures Survivors(Survivors(ces, a), b) == Survivors(ces, a + b)
  {
    if ces != [] {
      SurvivorsTwice(ces[1..], a, b);
      var rest := Survivors(ces[1..], a);
      if ces[0].id in a {
        assert Survivors(ces, a) == rest;
      } else {
        assert Survivors(ces, a) == [ces[0]] + rest;
        assert ([ces[0]] + rest)[1..] == rest;
      }
    }
  }

  /** Maps `m` and `m0` hold the same list under every key but `k`. */
  ghost predicate AgreeBut<V>(m: map<nat, seq<V>>, m0: map<nat, seq<V>>, k: nat) {
    forall w :: w != k ==> At(m, w) == At(m0, w)
  }

  /** Replacing the list under `k` keeps the agreement elsewhere. */
  lemma AgreeButUpdate<V>(m: map<nat, seq<V>>, m0: map<nat, seq<V>>, k: nat, v: seq<V>)
    requires AgreeBut(m, m0, k)
    ensures AgreeBut(m[k := v], m0, k)
  {
  }

  /** Agreement outside one key is transitive. */
  lemma AgreeButTrans<V>(m: map<nat, seq<V>>, m1: map<nat, seq<V>>, m0: map<nat, seq<V>>, k: nat)
    requires AgreeBut(m, m1, k) && AgreeBut(m1, m0, k)
    ensures AgreeBut(m, m0, k)
  {
  }

  /** The team table after member `x` joins team `k`: unchanged when already there, else appended. */
  function Joined(m: map<nat, seq<nat>>, k: nat, x: nat): (r: map<nat, seq<nat>>)
    ensures forall y :: y in At(r, k) <==> y in At(m, k) || y == x
    ensures AgreeBut(r, m, k)
  {
    if x in At(m, k) then m else m[k := At(m, k) + [x]]
  }

  /** Whether participant `p` stands for the given member or team. */
  predicate SameParticipant(p: Participant, memberId: Option<nat>, teamId: Option<nat>) {
    (memberId.Some? && p.memberId == memberId) || (teamId.Some? && p.teamId == teamId)
  }

  /** `ps` with the participant `participantId` given `role`. */
  function WithRole(ps: seq<Participant>, participantId: nat, role: Role): (r: seq<Participant>)
    ensures |r| == |ps|
    ensures forall i :: 0 <= i < |ps| ==>
      r[i] == if ps[i].participantId == participantId then ps[i].(role := role) else ps[i]
  {
    seq(|ps|, i requires 0 <= i < |ps| =>
      if ps[i].participantId == participantId then ps[i].(role := role) else ps[i])
  }

  /**
   * A workspace's participants as the server numbers them: each stands for
   * exactly one member or team, and their identifiers are distinct and below
   * the next identifier `n`.
   */
  predicate Numbered(ps: seq<Participant>, n: nat) {
    && (forall i :: 0 <= i < |ps| ==> ps[i].participantId < n && ps[i].memberId.Some? != ps[i].teamId.Some?)
    && (forall i, j :: 0 <= i < j < |ps| ==> ps[i].participantId != ps[j].participantId)
  }

  /** Changing a role keeps the numbering. */
  lemma NumberedWithRole(ps: seq<Participant>, n: nat, participantId: nat, role: Role)
    requires Numbered(ps, n)
    ensures Numbered(WithRole(ps, participantId, role), n)
  {
  }

  /** A new participant numbered `n` keeps the numbering, below `n + 1`. */
  lemma NumberedAppend(ps: seq<Participant>, n: nat, p: Participant)
    requires Numbered(ps, n) && p.participantId == n && p.memberId.Some? != p.teamId.Some?
    ensures Numbered(ps + [p], n + 1)
  {
  }

  /**
   * The participants of a workspace after the member or team is added: unchanged
   * when a participant already stands for it, else a new one with the
   * identifier `newId` and the role `role` at the end.
   */
  function Admitted(ps: seq<Participant>, memberId: Option<nat>, teamId: Option<nat>, newId: nat, role: Role): (r: seq<Participant>)
    ensures ps <= r && |r| <= |ps| + 1
  {
    if exists p :: p in ps && SameParticipant(p, memberId, teamId) then ps
    else ps + [Participant(newId, memberId, teamId, role)]
  }

  /** A user name function that tells users apart and never holds a quote. */
  ghost predicate UserNaming(userNameOf: string -> string) {
    && (forall a, b :: userNameOf(a) == userNameOf(b) ==> a == b)
    && (forall a :: Quote !in userNameOf(a))
  }

  class Tower {
    /** The user name the server gives to the member with a given email. */
    const userNameOf: string -> string
    /** The role a new participant gets before the reconciler sets one. */
    const defaultRole: Role
    /** The compute environments that are running jobs and cannot be deleted. */
    const activeJobs: set<nat>

    var orgs: seq<Org>
    /** Members of each organization. */
    var members: map<nat, seq<Member>>
    /** Teams of each organization. */
    var teams: map<nat, seq<TeamRecord>>
    /** Member identifiers of each team. */
    var teamMembers: map<nat, seq<nat>>
    /** Workspaces of each organization. */
    var workspaces: map<nat, seq<WorkspaceRecord>>
    /** Participants of each workspace. */
    var participants: map<nat, seq<Participant>>
    /** Credentials of each workspace. */
    var credentials: map<nat, seq<Credentials>>
    /** Compute environments of each workspace. */
    var computeEnvs: map<nat, seq<ComputeEnv>>
    /** The primary compute environment of each workspace. */
    var primary: map<nat, nat>
    /** The identifier the next created record gets. */
    var nextId: nat

    /**
     * The server's invariant: identifiers start at 1, each organization
     * has at most one member per email, named after that email, and the
     * participants of every workspace are numbered.
     */
    ghost predicate Valid()
      reads this`nextId, this`participants, this`members
    {
      && nextId >= 1
      && (forall w :: w in participants ==> Numbered(participants[w], nextId))
      && UserNaming(userNameOf)
      && (forall o :: o in members ==> DistinctEmails(members[o]))
      && (forall o, m :: o in members && m in members[o] ==> m.userName == userNameOf(m.email))
    }

    /** An empty server. */
    constructor (userNameOf: string -> string, defaultRole: Role, activeJobs: set<nat>)
      requires UserNaming(userNameOf)
      ensures Valid()
      ensures orgs == [] && members == map[] && teams == map[] && teamMembers == map[]
      ensures workspaces == map[] && participants == map[] && credentials == map[]
      ensures computeEnvs == map[] && primary == map[] && nextId == 1
    {
      this.userNameOf := userNameOf;
      this.defaultRole := defaultRole;
      this.activeJobs := activeJobs;
      orgs, members, teams, teamMembers := [], map[], map[], map[];
      workspaces, participants, credentials := map[], map[], map[];
      computeEnvs, primary, nextId := map[], map[], 1;
    }

    /** `POST /orgs`. */
    method PostOrg(name: string, fullName: string) returns (org: Org)
      requires Valid()
      modifies this`orgs, this`nextId
      ensures Valid()
      ensures org == Org(old(nextId), name, fullName)
      ensures orgs == old(orgs) + [org] && nextId == old(nextId) + 1
    {
      org := Org(nextId, name, fullName);
      orgs := orgs + [org];
      nextId := nextId + 1;
    }

    /** `PUT /orgs/{orgId}/members/add`: adds the email unless a member already has it. */
    method AddOrgMember(orgId: nat, email: string) returns (reply: MemberReply)
      requires Valid()
      modifies this`members, this`nextId
      ensures Valid()
      ensures match FindEmail(old(At(members, orgId)), email)
        case Some(m) =>
          reply == MemberMessage(AlreadyMember(m.userName)) && members == old(members) && nextId == old(nextId)
        case None =>
          && reply == NewMember(Member(old(nextId), email, userNameOf(email)))
          && members == old(members)[orgId := old(At(members, orgId)) + [reply.member]]
          && nextId == old(nextId) + 1
    {
      var ms := At(members, orgId);
      match FindEmail(ms, email)
      case Some(m) =>
        reply := MemberMessage(AlreadyMember(m.userName));
      case None =>
        var m := Member(nextId, email, userNameOf(email));
        reply := NewMember(m);
        members := members[orgId := ms + [m]];
        nextId := nextId + 1;
    }

    /** `POST /orgs/{orgId}/teams/{teamId}/members`: adds the member with the given email to a team. */
    method AddTeamMember(orgId: nat, teamId: nat, email: string) returns (reply: MemberReply)
      requires Valid()
      modifies this`teamMembers
      ensures Valid()
      ensures match FindEmail(At(members, orgId), email)
        case None => reply == MemberMessage(NotAMember) && teamMembers == old(teamMembers)
        case Some(m) =>
          if m.memberId in old(At(teamMembers, teamId)) then
            reply == MemberMessage(AlreadyInTeam) && teamMembers == old(teamMembers)
          else
            && reply == NewMember(m)
            && teamMembers == old(teamMembers)[teamId := old(At(teamMembers, teamId)) + [m.memberId]]
    {
      match FindEmail(At(members, orgId), email)
      case None =>
        reply := MemberMessage(NotAMember);
      case Some(m) =>
        var ids := At(teamMembers, teamId);
        if m.memberId in ids {
          reply := MemberMessage(AlreadyInTeam);
        } else {
          reply := NewMember(m);
          teamMembers := teamMembers[teamId := ids + [m.memberId]];
        }
    }

    /** `DELETE /orgs/{orgId}/teams/{teamId}/members/{memberId}/delete`. */
    method DeleteTeamMember(teamId: nat, memberId: nat)
      requires Valid()
      modifies this`teamMembers
      ensures Valid()
      ensures teamMembers == old(teamMembers)[teamId := Without(old(At(teamMembers, teamId)), memberId)]
    {
      teamMembers := teamMembers[teamId := Without(At(teamMembers, teamId), memberId)];
    }

    /** `POST /orgs/{orgId}/teams`: a new team has no members. */
    method PostTeam(orgId: nat, name: string) returns (team: TeamRecord)
      requires Valid()
      modifies this`teams, this`teamMembers, this`nextId
      ensures Valid()
      ensures team == TeamRecord(old(nextId), name)
      ensures teams == old(teams)[orgId := old(At(teams, orgId)) + [team]]
      ensures teamMembers == old(teamMembers)[team.teamId := []]
      ensures nextId == old(nextId) + 1
    {
      team := TeamRecord(nextId, name);
      teams := teams[orgId := At(teams, orgId) + [team]];
      teamMembers := teamMembers[team.teamId := []];
      nextId := nextId + 1;
    }

    /** `POST /orgs/{orgId}/workspaces`. */
    method PostWorkspace(orgId: nat, name: string, fullName: string) returns (ws: WorkspaceRecord)
      requires Valid()
      modifies this`workspaces, this`nextId
      ensures Valid()
      ensures ws == WorkspaceRecord(old(nextId), name, fullName)
      ensures workspaces == old(workspaces)[orgId := old(At(workspaces, orgId)) + [ws]]
      ensures nextId == old(nextId) + 1
    {
      ws := WorkspaceRecord(nextId, name, fullName);
      workspaces := workspaces[orgId := At(workspaces, orgId) + [ws]];
      nextId := nextId + 1;
    }

    /**
     * `PUT /orgs/{orgId}/workspaces/{wsId}/participants/add`: adds the member
     * or team unless a participant already stands for it.
     */
    method AddWorkspaceParticipant(wsId: nat, memberId: Option<nat>, teamId: Option<nat>) returns (reply: ParticipantReply)
      requires Valid() && memberId.Some? != teamId.Some?
      modifies this`participants, this`nextId
      ensures Valid()
      ensures if exists p :: p in old(At(participants, wsId)) && SameParticipant(p, memberId, teamId) then
          reply == AlreadyParticipant && participants == old(participants) && nextId == old(nextId)
        else
          && reply == NewParticipant(Participant(old(nextId), memberId, teamId, defaultRole))
          && participants == old(participants)[wsId := old(At(participants, wsId)) + [reply.participant]]
          && nextId == old(nextId) + 1
      ensures participants == old(participants)[wsId := Admitted(old(At(participants, wsId)), memberId, teamId, old(nextId), defaultRole)]
    {
      var ps := At(participants, wsId);
      if exists p :: p in ps && SameParticipant(p, memberId, teamId) {
        reply := AlreadyParticipant;
      } else {
        var p := Participant(nextId, memberId, teamId, defaultRole);
        NumberedAppend(ps, nextId, p);
        reply := NewParticipant(p);
        participants := participants[wsId := ps + [p]];
        nextId := nextId + 1;
      }
    }

    /** `PUT /orgs/{orgId}/workspaces/{wsId}/participants/{participantId}/role`. */
    method PutParticipantRole(wsId: nat, participantId: nat, role: Role)
      requires Valid()
      modifies this`participants
      ensures Valid()
      ensures participants == old(participants)[wsId := WithRole(old(At(participants, wsId)), participantId, role)]
    {
      NumberedWithRole(At(participants, wsId), nextId, participantId, role);
      participants := participants[wsId := WithRole(At(participants, wsId), participantId, role)];
    }

    /** `POST /credentials?workspaceId={wsId}`: new AWS credentials. */
    method PostCredentials(wsId: nat, name: string) returns (id: nat)
      requires Valid()
      modifies this`credentials, this`nextId
      ensures Valid()
      ensures id == old(nextId) && nextId == old(nextId) + 1
      ensures credentials == old(credentials)[wsId := old(At(credentials, wsId)) + [Credentials(id, name, Aws, false)]]
    {
      id := nextId;
      credentials := credentials[wsId := At(credentials, wsId) + [Credentials(id, name, Aws, false)]];
      nextId := nextId + 1;
    }

    /**
     * `DELETE /compute-envs/{ceId}?workspaceId={wsId}`: refused with a message
     * while the environment is running jobs.
     */
    method DeleteComputeEnv(wsId: nat, ceId: nat) returns (message: Option<string>)
      requires Valid()
      modifies this`computeEnvs
      ensures Valid()
      ensures if ceId in activeJobs then
          message == Some(ActiveJobs) && computeEnvs == old(computeEnvs)
        else
          message == None && computeEnvs == old(computeEnvs)[wsId := Survivors(old(At(computeEnvs, wsId)), {ceId})]
    {
      if ceId in activeJobs {
        message := Some(ActiveJobs);
      } else {
        message := None;
        computeEnvs := computeEnvs[wsId := Survivors(At(computeEnvs, wsId), {ceId})];
      }
    }

    /** `POST /compute-envs?workspaceId={wsId}`: a new AWS Batch environment, still being created. */
    method PostComputeEnv(wsId: nat, request: ComputeEnvRequest) returns (id: nat)
      requires Valid()
      modifies this`computeEnvs, this`nextId
      ensures Valid()
      ensures id == old(nextId) && nextId == old(nextId) + 1
      ensures computeEnvs == old(computeEnvs)[wsId := old(At(computeEnvs, wsId)) + [ComputeEnv(id, request.name, AwsBatch, Creating)]]
    {
      id := nextId;
      computeEnvs := computeEnvs[wsId := At(computeEnvs, wsId) + [ComputeEnv(id, request.name, AwsBatch, Creating)]];
      nextId := nextId + 1;
    }

    /** `POST /compute-envs/{ceId}/primary?workspaceId={wsId}`. */
    method PostPrimary(wsId: nat, ceId: nat)
      requires Valid()
      modifies this`primary
      ensures Valid()
      ensures primary == old(primary)[wsId := ceId]
    {
      primary := primary[wsId := ceId];
    }
  }
}
