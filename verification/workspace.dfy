/**
 * One project's Tower workspace: its participants, its AWS credentials and
 * the rotation of its compute environments.
 */
module Workspaces {
  import opened Wrappers
  import opened Text
  import opened Dicts
  import opened Roles
  import opened Client
  import opened Remote

  /** A `user` argument counts only when present and non-empty. */
  predicate GivenUser(user: Option<string>) {
    user.Some? && user.value != ""
  }

  /** A `team_id` argument counts only when present and non-zero. */
  predicate GivenTeam(teamId: Option<nat>) {
    teamId.Some? && teamId.value != 0
  }

  /** Participant `p` stands for `identifier`, as a member or as a team. */
  predicate Stands(p: Participant, identifier: nat) {
    p.memberId == Some(identifier) || p.teamId == Some(identifier)
  }

  /** The last participant of `ps` standing for `identifier`. */
  function LastMatch(ps: seq<Participant>, identifier: nat): (r: Option<Participant>)
    ensures r.Some? ==> r.value in ps && Stands(r.value, identifier)
    ensures r.Some? ==> exists i :: 0 <= i < |ps| && ps[i] == r.value && forall j :: i < j < |ps| ==> !Stands(ps[j], identifier)
    ensures r.None? ==> forall p :: p in ps ==> !Stands(p, identifier)
  {
    if ps == [] then None
    else if Stands(ps[|ps| - 1], identifier) then Some(ps[|ps| - 1])
    else LastMatch(ps[..|ps| - 1], identifier)
  }

  /** One more participant of the listing scanned. */
  lemma LastMatchStep(ps: seq<Participant>, i: nat, identifier: nat)
    requires i < |ps|
    ensures LastMatch(ps[..i + 1], identifier) == if Stands(ps[i], identifier) then Some(ps[i]) else LastMatch(ps[..i], identifier)
  {
    assert ps[..i + 1][..i] == ps[..i];
  }

  /** Giving a participant a role moves no one: the last match only takes the new role. */
  lemma {:induction false} LastMatchWithRole(ps: seq<Participant>, participantId: nat, role: Role, identifier: nat)
    ensures LastMatch(WithRole(ps, participantId, role), identifier) ==
      match LastMatch(ps, identifier)
      case None => None
      case Some(p) => Some(if p.participantId == participantId then p.(role := role) else p)
  {
    if ps != [] {
      var n, updated := |ps|, WithRole(ps, participantId, role);
      assert updated[..n - 1] == WithRole(ps[..n - 1], participantId, role);
      assert Stands(updated[n - 1], identifier) == Stands(ps[n - 1], identifier);
      LastMatchWithRole(ps[..n - 1], participantId, role, identifier);
    }
  }

  /** The member identifier of an addition: `identifier` unless it names a team. */
  function MemberKey(identifier: nat, asTeam: bool): Option<nat> {
    if asTeam then None else Some(identifier)
  }

  /** The team identifier of an addition: `identifier` when it names a team. */
  function TeamKey(identifier: nat, asTeam: bool): Option<nat> {
    if asTeam then Some(identifier) else None
  }

  /**
   * The participants of a workspace after `add_participant` gives the member
   * (or, with `asTeam`, the team) `identifier` the role `role`: the server
   * admits it, then the last participant standing for it takes the role.
   */
  function Enrolled(ps: seq<Participant>, identifier: nat, asTeam: bool, newId: nat, defaultRole: Role, role: Role): seq<Participant> {
    var admitted := Admitted(ps, MemberKey(identifier, asTeam), TeamKey(identifier, asTeam), newId, defaultRole);
    match LastMatch(admitted, identifier)
    case Some(p) => WithRole(admitted, p.participantId, role)
    case None => admitted
  }

  /** After the addition, the last participant standing for `identifier` is the admitted one, with `role`. */
  lemma EnrolledRole(ps: seq<Participant>, identifier: nat, asTeam: bool, newId: nat, defaultRole: Role, role: Role)
    ensures var admitted := Admitted(ps, MemberKey(identifier, asTeam), TeamKey(identifier, asTeam), newId, defaultRole);
      && LastMatch(admitted, identifier).Some?
      && LastMatch(Enrolled(ps, identifier, asTeam, newId, defaultRole, role), identifier)
         == Some(LastMatch(admitted, identifier).value.(role := role))
  {
    var memberId, teamId := MemberKey(identifier, asTeam), TeamKey(identifier, asTeam);
    var admitted := Admitted(ps, memberId, teamId, newId, defaultRole);
    if exists p :: p in ps && SameParticipant(p, memberId, teamId) {
      var p :| p in ps && SameParticipant(p, memberId, teamId);
      assert Stands(p, identifier);
    } else {
      assert Stands(admitted[|admitted| - 1], identifier);
    }
    LastMatchWithRole(admitted, LastMatch(admitted, identifier).value.participantId, role, identifier);
  }

  /**
   * In a numbered listing, adding one member or team leaves the last
   * participant standing for any other identifier as it was.
   */
  lemma EnrolledKeeps(ps: seq<Participant>, identifier: nat, asTeam: bool, newId: nat, defaultRole: Role, role: Role, other: nat)
    requires Numbered(ps, newId) && other != identifier
    ensures LastMatch(Enrolled(ps, identifier, asTeam, newId, defaultRole, role), other) == LastMatch(ps, other)
  {
    var admitted := Admitted(ps, MemberKey(identifier, asTeam), TeamKey(identifier, asTeam), newId, defaultRole);
    AdmittedKeeps(ps, identifier, asTeam, newId, defaultRole, other);
    EnrolledRole(ps, identifier, asTeam, newId, defaultRole, role);
    WithRoleKeeps(admitted, newId + 1, identifier, role, other);
  }

  /** The server's addition keeps the numbering and adds no participant standing for another identifier. */
  lemma AdmittedKeeps(ps: seq<Participant>, identifier: nat, asTeam: bool, newId: nat, defaultRole: Role, other: nat)
    requires Numbered(ps, newId) && other != identifier
    ensures var admitted := Admitted(ps, MemberKey(identifier, asTeam), TeamKey(identifier, asTeam), newId, defaultRole);
      Numbered(admitted, newId + 1) && LastMatch(admitted, other) == LastMatch(ps, other)
  {
    var memberId, teamId := MemberKey(identifier, asTeam), TeamKey(identifier, asTeam);
    var admitted := Admitted(ps, memberId, teamId, newId, defaultRole);
    if admitted != ps {
      var q := Participant(newId, memberId, teamId, defaultRole);
      assert admitted == ps + [q] && !Stands(q, other);
      assert admitted[..|ps|] == ps;
      NumberedAppend(ps, newId, q);
    }
  }

  /** In a numbered listing, giving the last match of `identifier` a role leaves the last match of `other` alone. */
  lemma WithRoleKeeps(ps: seq<Participant>, n: nat, identifier: nat, role: Role, other: nat)
    requires Numbered(ps, n) && LastMatch(ps, identifier).Some? && other != identifier
    ensures LastMatch(WithRole(ps, LastMatch(ps, identifier).value.participantId, role), other) == LastMatch(ps, other)
  {
    var y := LastMatch(ps, identifier).value;
    LastMatchWithRole(ps, y.participantId, role, other);
    if LastMatch(ps, other).Some? {
      var x := LastMatch(ps, other).value;
      var i :| 0 <= i < |ps| && ps[i] == x;
      var j :| 0 <= j < |ps| && ps[j] == y;
      if x == y {
        OneStanding(x, other, identifier);
      }
      NumberedDistinct(ps, n, i, j);
    }
  }

  /** A numbered participant stands for one identifier only. */
  lemma OneStanding(p: Participant, a: nat, b: nat)
    requires p.memberId.Some? != p.teamId.Some? && Stands(p, a) && Stands(p, b)
    ensures a == b
  {
  }

  /** Two places of a numbered listing hold different identifiers. */
  lemma NumberedDistinct(ps: seq<Participant>, n: nat, i: nat, j: nat)
    requires Numbered(ps, n) && i < |ps| && j < |ps| && i != j
    ensures ps[i].participantId != ps[j].participantId
  {
    if j < i {
      assert ps[j].participantId != ps[i].participantId;
    }
  }

  /** Adding the same member or team again leaves what one addition with the second role leaves. */
  lemma EnrolledTwice(ps: seq<Participant>, identifier: nat, asTeam: bool, newId: nat, newId2: nat, defaultRole: Role, role: Role, role2: Role)
    ensures Enrolled(Enrolled(ps, identifier, asTeam, newId, defaultRole, role), identifier, asTeam, newId2, defaultRole, role2)
         == Enrolled(ps, identifier, asTeam, newId, defaultRole, role2)
  {
    var memberId, teamId := MemberKey(identifier, asTeam), TeamKey(identifier, asTeam);
    var admitted := Admitted(ps, memberId, teamId, newId, defaultRole);
    EnrolledRole(ps, identifier, asTeam, newId, defaultRole, role);
    var y := LastMatch(admitted, identifier).value;
    var once := Enrolled(ps, identifier, asTeam, newId, defaultRole, role);
    assert once == WithRole(admitted, y.participantId, role);
    var k :| 0 <= k < |admitted| && SameParticipant(admitted[k], memberId, teamId);
    assert once[k] == if admitted[k].participantId == y.participantId then admitted[k].(role := role) else admitted[k];
    assert SameParticipant(once[k], memberId, teamId);
    assert Admitted(once, memberId, teamId, newId2, defaultRole) == once;
    WithRoleTwice(admitted, y.participantId, role, role2);
  }

  /** The second role given to a participant replaces the first. */
  lemma WithRoleTwice(ps: seq<Participant>, participantId: nat, role: Role, role2: Role)
    ensures WithRole(WithRole(ps, participantId, role), participantId, role2) == WithRole(ps, participantId, role2)
  {
    assert forall i :: 0 <= i < |ps| ==> WithRole(WithRole(ps, participantId, role), participantId, role2)[i] == WithRole(ps, participantId, role2)[i];
  }

  /** The last participant standing for `identifier` has `role`. */
  predicate Settled(ps: seq<Participant>, identifier: nat, role: Role) {
    LastMatch(ps, identifier).Some? && LastMatch(ps, identifier).value.role == role
  }

  /** Entry `k` of `wanted` is the last one for its identifier. */
  predicate Final(wanted: seq<(nat, Role)>, k: nat)
    requires k < |wanted|
  {
    forall j :: k < j < |wanted| ==> wanted[j].0 != wanted[k].0
  }

  /** Every identifier of `wanted` has in `ps` the role of its last entry. */
  predicate Converged(ps: seq<Participant>, wanted: seq<(nat, Role)>) {
    forall k :: 0 <= k < |wanted| && Final(wanted, k) ==> Settled(ps, wanted[k].0, wanted[k].1)
  }

  /** The last participants of `ps` and `ps0` agree for every identifier `wanted` does not name. */
  ghost predicate KeepsOthers(ps: seq<Participant>, ps0: seq<Participant>, wanted: seq<(nat, Role)>) {
    forall x :: (forall k :: 0 <= k < |wanted| ==> wanted[k].0 != x) ==> LastMatch(ps, x) == LastMatch(ps0, x)
  }

  /** Adding the next wanted identifier keeps the earlier ones converged and leaves the others alone. */
  lemma ConvergedStep(ps0: seq<Participant>, ps: seq<Participant>, wanted: seq<(nat, Role)>, i: nat, asTeam: bool, newId: nat, defaultRole: Role)
    requires i < |wanted| && Numbered(ps, newId)
    requires Converged(ps, wanted[..i]) && KeepsOthers(ps, ps0, wanted[..i])
    ensures var after := Enrolled(ps, wanted[i].0, asTeam, newId, defaultRole, wanted[i].1);
      Converged(after, wanted[..i + 1]) && KeepsOthers(after, ps0, wanted[..i + 1])
  {
    var after := Enrolled(ps, wanted[i].0, asTeam, newId, defaultRole, wanted[i].1);
    var done := wanted[..i + 1];
    forall k | 0 <= k < |done| && Final(done, k)
      ensures Settled(after, done[k].0, done[k].1)
    {
      if k == i {
        EnrolledRole(ps, wanted[i].0, asTeam, newId, defaultRole, wanted[i].1);
      } else {
        assert Final(wanted[..i], k) by {
          forall j | k < j < i
            ensures wanted[..i][j].0 != wanted[..i][k].0
          {
            assert done[j] == wanted[..i][j];
          }
        }
        assert done[k] == wanted[..i][k] && done[i] == wanted[i];
        assert done[k].0 != wanted[i].0;
        EnrolledKeeps(ps, wanted[i].0, asTeam, newId, defaultRole, wanted[i].1, done[k].0);
      }
    }
    forall x | forall k :: 0 <= k < |done| ==> done[k].0 != x
      ensures LastMatch(after, x) == LastMatch(ps0, x)
    {
      assert done[i] == wanted[i];
      assert forall k :: 0 <= k < i ==> wanted[..i][k] == done[k];
      EnrolledKeeps(ps, wanted[i].0, asTeam, newId, defaultRole, wanted[i].1, x);
    }
  }

  /** The member identifier and role of each listed user; 0 for a user that is not a member. */
  function MemberRoles(entries: seq<Entry>, members: map<string, Member>): (wanted: seq<(nat, Role)>)
    ensures |wanted| == |entries|
    ensures forall i :: 0 <= i < |entries| && entries[i].user in members ==>
      wanted[i] == (members[entries[i].user].memberId, entries[i].role)
  {
    seq(|entries|, i requires 0 <= i < |entries| =>
      (if entries[i].user in members then members[entries[i].user].memberId else 0, entries[i].role))
  }

  /** The first workspace of `ws` with the given name. */
  function FindWorkspace(ws: seq<WorkspaceRecord>, name: string): (r: Option<WorkspaceRecord>)
    ensures r.Some? ==> r.value in ws && r.value.name == name
    ensures r.Some? ==> exists i :: 0 <= i < |ws| && ws[i] == r.value && forall j :: 0 <= j < i ==> ws[j].name != name
    ensures r.None? ==> forall w :: w in ws ==> w.name != name
  {
    if ws == [] then None
    else if ws[0].name == name then Some(ws[0])
    else FindWorkspace(ws[1..], name)
  }

  /** The first credentials of `cs` with the given name. */
  function FindCredentials(cs: seq<Credentials>, name: string): (r: Option<Credentials>)
    ensures r.Some? ==> r.value in cs && r.value.name == name
    ensures r.Some? ==> exists i :: 0 <= i < |cs| && cs[i] == r.value && forall j :: 0 <= j < i ==> cs[j].name != name
    ensures r.None? ==> forall c :: c in cs ==> c.name != name
  {
    if cs == [] then None
    else if cs[0].name == name then Some(cs[0])
    else FindCredentials(cs[1..], name)
  }

  /** A workspace created because none had its name is the one a new scan finds. */
  lemma {:induction false} FindWorkspaceAppend(ws: seq<WorkspaceRecord>, w: WorkspaceRecord)
    requires FindWorkspace(ws, w.name).None?
    ensures FindWorkspace(ws + [w], w.name) == Some(w)
  {
    if ws != [] {
      assert (ws + [w])[1..] == ws[1..] + [w];
      FindWorkspaceAppend(ws[1..], w);
    }
  }

  /** Some workspace of `ws` has the given name. */
  predicate Lists(ws: seq<WorkspaceRecord>, name: string) {
    exists w :: w in ws && w.name == name
  }

  /** `FindWorkspace` finds a workspace exactly when one of that name is listed. */
  lemma FindWorkspaceLists(ws: seq<WorkspaceRecord>, name: string)
    ensures FindWorkspace(ws, name).Some? <==> Lists(ws, name)
  {
  }

  /** A listed workspace stays listed as workspaces are created. */
  lemma ListsGrows(ws: seq<WorkspaceRecord>, ws2: seq<WorkspaceRecord>, name: string)
    requires ws <= ws2 && Lists(ws, name)
    ensures Lists(ws2, name)
  {
    var w :| w in ws && w.name == name;
    assert w in ws2;
  }

  /** Workspaces created later never hide the first one with a name. */
  lemma {:induction false} FindWorkspaceGrows(ws: seq<WorkspaceRecord>, ws2: seq<WorkspaceRecord>, name: string)
    requires ws <= ws2 && FindWorkspace(ws, name).Some?
    ensures FindWorkspace(ws2, name) == FindWorkspace(ws, name)
  {
    if ws[0].name != name {
      assert ws[1..] <= ws2[1..];
      FindWorkspaceGrows(ws[1..], ws2[1..], name);
    }
  }

  lemma FindCredentialsAppend(cs: seq<Credentials>, c: Credentials)
    requires FindCredentials(cs, c.name).None?
    ensures FindCredentials(cs + [c], c.name) == Some(c)
  {
    if cs != [] {
      assert (cs + [c])[1..] == cs[1..] + [c];
      FindCredentialsAppend(cs[1..], c);
    }
  }

  /**
   * The credentials of every workspace after `create_credentials` for the
   * workspace `wsId`: unchanged when some named `name` exist, else new AWS
   * credentials with that name and the identifier `newId`.
   */
  function WithCredentials(cs: map<nat, seq<Credentials>>, wsId: nat, name: string, newId: nat): (r: map<nat, seq<Credentials>>)
    ensures AgreeBut(r, cs, wsId) && At(cs, wsId) <= At(r, wsId)
    ensures FindCredentials(At(r, wsId), name).Some?
  {
    if FindCredentials(At(cs, wsId), name).Some? then cs
    else
      FindCredentialsAppend(At(cs, wsId), Credentials(newId, name, Aws, false));
      cs[wsId := At(cs, wsId) + [Credentials(newId, name, Aws, false)]]
  }

  /** Creating the credentials a second time changes nothing. */
  lemma WithCredentialsTwice(cs: map<nat, seq<Credentials>>, wsId: nat, name: string, newId: nat, newId2: nat)
    ensures WithCredentials(WithCredentials(cs, wsId, name, newId), wsId, name, newId2) == WithCredentials(cs, wsId, name, newId)
  {
  }

  /** Credentials the reconciler accepts: AWS ones that are not deleted. */
  predicate Sound(c: Credentials) {
    c.provider == Aws && !c.deleted
  }

  /** The name of a project's spot compute environment. */
  function SpotName(stackName: string): string {
    stackName + "-spot-" + CeVersion
  }

  /** The name of a project's on-demand compute environment. */
  function OnDemandName(stackName: string): string {
    stackName + "-ondemand-" + CeVersion
  }

  /** The two names never coincide. */
  lemma NamesDiffer(stackName: string)
    ensures SpotName(stackName) != OnDemandName(stackName)
  {
    assert |SpotName(stackName)| != |OnDemandName(stackName)|;
  }

  /** An AWS Batch environment that is available or being created. */
  predicate Usable(ce: ComputeEnv) {
    ce.platform == AwsBatch && (ce.status == Available || ce.status == Creating)
  }

  /** The identifier of the last usable environment of `ces` with the given name. */
  function LastUsable(ces: seq<ComputeEnv>, name: string): (r: Option<nat>)
    ensures r.Some? <==> exists ce :: ce in ces && Usable(ce) && ce.name == name
    ensures r.Some? ==> exists i :: 0 <= i < |ces| && Usable(ces[i]) && ces[i].name == name && ces[i].id == r.value
                                    && forall j :: i < j < |ces| ==> !(Usable(ces[j]) && ces[j].name == name)
  {
    if ces == [] then None
    else if Usable(ces[|ces| - 1]) && ces[|ces| - 1].name == name then Some(ces[|ces| - 1].id)
    else LastUsable(ces[..|ces| - 1], name)
  }

  lemma LastUsableAppend(ces: seq<ComputeEnv>, ce: ComputeEnv, name: string)
    ensures LastUsable(ces + [ce], name) == if Usable(ce) && ce.name == name then Some(ce.id) else LastUsable(ces, name)
  {
    assert (ces + [ce])[..|ces|] == ces;
  }

  /**
   * The environments of a workspace after provisioning: the listing, then a
   * new spot environment if no usable one exists, then a new on-demand one
   * likewise.
   */
  function Provisioned(before: seq<ComputeEnv>, stackName: string, ids: CeIds): (r: seq<ComputeEnv>)
    ensures before <= r
    ensures |r| <= |before| + 2
  {
    before
    + (if LastUsable(before, SpotName(stackName)).None? then [ComputeEnv(ids.spot, SpotName(stackName), AwsBatch, Creating)] else [])
    + (if LastUsable(before, OnDemandName(stackName)).None? then [ComputeEnv(ids.onDemand, OnDemandName(stackName), AwsBatch, Creating)] else [])
  }

  /** After provisioning, the last usable environments with both names are the ones reported. */
  lemma ProvisionedUsable(before: seq<ComputeEnv>, stackName: string, ids: CeIds)
    requires LastUsable(before, SpotName(stackName)).Some? ==> ids.spot == LastUsable(before, SpotName(stackName)).value
    requires LastUsable(before, OnDemandName(stackName)).Some? ==> ids.onDemand == LastUsable(before, OnDemandName(stackName)).value
    ensures LastUsable(Provisioned(before, stackName, ids), SpotName(stackName)) == Some(ids.spot)
    ensures LastUsable(Provisioned(before, stackName, ids), OnDemandName(stackName)) == Some(ids.onDemand)
  {
    var spotName, onDemandName := SpotName(stackName), OnDemandName(stackName);
    NamesDiffer(stackName);
    var spotCe := ComputeEnv(ids.spot, spotName, AwsBatch, Creating);
    var onDemandCe := ComputeEnv(ids.onDemand, onDemandName, AwsBatch, Creating);
    var middle := before + (if LastUsable(before, spotName).None? then [spotCe] else []);
    if LastUsable(before, spotName).None? {
      LastUsableAppend(before, spotCe, spotName);
      LastUsableAppend(before, spotCe, onDemandName);
    } else {
      assert middle == before;
    }
    if LastUsable(before, onDemandName).None? {
      LastUsableAppend(middle, onDemandCe, spotName);
      LastUsableAppend(middle, onDemandCe, onDemandName);
    } else {
      assert Provisioned(before, stackName, ids) == middle;
    }
  }

  /** One more environment of the listing scanned. */
  lemma LastUsableStep(ces: seq<ComputeEnv>, i: nat, name: string)
    requires i < |ces|
    ensures LastUsable(ces[..i + 1], name) == if Usable(ces[i]) && ces[i].name == name then Some(ces[i].id) else LastUsable(ces[..i], name)
  {
    assert ces[..i + 1][..i] == ces[..i];
  }

  lemma DoomedStep(ces: seq<ComputeEnv>, i: nat, launchers: bool, active: set<nat>)
    requires i < |ces|
    ensures if !Kept(ces[i], launchers) && ces[i].id !in active
      then DoomedIds(ces[..i + 1], launchers, active) == DoomedIds(ces[..i], launchers, active) + {ces[i].id}
      else DoomedIds(ces[..i + 1], launchers, active) == DoomedIds(ces[..i], launchers, active)
  {
    assert ces[..i + 1][..i] == ces[..i];
  }

  /**
   * The environments `ces` and primaries `primary` after workspace `wsId`
   * rotates its environments `ces0` with primaries `primary0`: the survivors
   * of the cleanup and, when someone can launch, a usable spot and on-demand
   * environment, a new spot one becoming the primary one.
   */
  ghost predicate Rotated(ces0: seq<ComputeEnv>, primary0: map<nat, nat>, ces: seq<ComputeEnv>, primary: map<nat, nat>,
                          wsId: nat, stackName: string, launchers: bool, active: set<nat>)
  {
    var cleaned := Survivors(ces0, DoomedIds(ces0, launchers, active));
    if launchers then
      exists ids: CeIds ::
        && ces == Provisioned(cleaned, stackName, ids)
        && LastUsable(ces, SpotName(stackName)) == Some(ids.spot)
        && LastUsable(ces, OnDemandName(stackName)) == Some(ids.onDemand)
        && primary == if LastUsable(cleaned, SpotName(stackName)).None? then primary0[wsId := ids.spot] else primary0
    else
      ces == cleaned && primary == primary0
  }

  /** Provisioning after the cleanup, in a workspace with launchers, is a rotation. */
  lemma RotatedProvisioned(ces0: seq<ComputeEnv>, primary0: map<nat, nat>, ces: seq<ComputeEnv>, primary: map<nat, nat>,
                           wsId: nat, stackName: string, active: set<nat>, ids: CeIds)
    requires var cleaned := Survivors(ces0, DoomedIds(ces0, true, active));
      && (LastUsable(cleaned, SpotName(stackName)).Some? ==> ids.spot == LastUsable(cleaned, SpotName(stackName)).value)
      && (LastUsable(cleaned, OnDemandName(stackName)).Some? ==> ids.onDemand == LastUsable(cleaned, OnDemandName(stackName)).value)
      && ces == Provisioned(cleaned, stackName, ids)
      && primary == if LastUsable(cleaned, SpotName(stackName)).None? then primary0[wsId := ids.spot] else primary0
    ensures Rotated(ces0, primary0, ces, primary, wsId, stackName, true, active)
  {
    ProvisionedUsable(Survivors(ces0, DoomedIds(ces0, true, active)), stackName, ids);
  }

  /** Both names carry the current version. */
  lemma NamesCurrent(stackName: string)
    ensures EndsWith(SpotName(stackName), CeVersion) && EndsWith(OnDemandName(stackName), CeVersion)
  {
    assert SpotName(stackName)[|SpotName(stackName)| - |CeVersion|..] == CeVersion;
    assert OnDemandName(stackName)[|OnDemandName(stackName)| - |CeVersion|..] == CeVersion;
  }

  /**
   * After the rotation no outdated environment remains unless it is running
   * jobs: every one has the current version in a workspace with launchers,
   * or is running jobs.
   */
  lemma RotatedCurrent(ces0: seq<ComputeEnv>, primary0: map<nat, nat>, ces: seq<ComputeEnv>, primary: map<nat, nat>,
                       wsId: nat, stackName: string, launchers: bool, active: set<nat>, ce: ComputeEnv)
    requires Rotated(ces0, primary0, ces, primary, wsId, stackName, launchers, active) && ce in ces
    ensures Kept(ce, launchers) || ce.id in active
  {
    var cleaned := Survivors(ces0, DoomedIds(ces0, launchers, active));
    if ce in cleaned {
      SurvivorsKept(ces0, launchers, active, ce);
    } else {
      var ids: CeIds :| ces == Provisioned(cleaned, stackName, ids);
      NamesCurrent(stackName);
      assert ce.name == SpotName(stackName) || ce.name == OnDemandName(stackName);
    }
  }

  /** The identifiers of the spot and on-demand environments of a workspace. */
  datatype CeIds = CeIds(spot: nat, onDemand: nat)

  /** An environment the cleanup keeps without asking: current version, in a workspace with launchers. */
  predicate Kept(ce: ComputeEnv, launchers: bool) {
    EndsWith(ce.name, CeVersion) && launchers
  }

  /** The identifiers the cleanup deletes: those of environments neither kept nor running jobs. */
  function DoomedIds(ces: seq<ComputeEnv>, launchers: bool, active: set<nat>): set<nat> {
    if ces == [] then {}
    else
      var ce := ces[|ces| - 1];
      DoomedIds(ces[..|ces| - 1], launchers, active)
      + (if !Kept(ce, launchers) && ce.id !in active then {ce.id} else {})
  }

  /** An environment survives the cleanup only if it is kept or running jobs. */
  lemma SurvivorsKept(ces: seq<ComputeEnv>, launchers: bool, active: set<nat>, ce: ComputeEnv)
    requires ce in Survivors(ces, DoomedIds(ces, launchers, active))
    ensures ce in ces && (Kept(ce, launchers) || ce.id in active)
  {
    if !Kept(ce, launchers) && ce.id !in active {
      DoomedHas(ces, launchers, active, ce);
    }
  }

  lemma {:induction false} DoomedHas(ces: seq<ComputeEnv>, launchers: bool, active: set<nat>, ce: ComputeEnv)
    requires ce in ces && !Kept(ce, launchers) && ce.id !in active
    ensures ce.id in DoomedIds(ces, launchers, active)
  {
    if ce != ces[|ces| - 1] {
      assert ce in ces[..|ces| - 1] by {
        var k :| 0 <= k < |ces| && ces[k] == ce;
        assert k < |ces| - 1;
        assert ces[..|ces| - 1][k] == ce;
      }
      DoomedHas(ces[..|ces| - 1], launchers, active, ce);
    }
  }

  /** Every doomed identifier is the identifier of some environment of `ces`. */
  lemma {:induction false} DoomedFrom(ces: seq<ComputeEnv>, launchers: bool, active: set<nat>, id: nat)
    requires id in DoomedIds(ces, launchers, active)
    ensures exists ce :: ce in ces && ce.id == id
  {
    var last := ces[|ces| - 1];
    if last.id != id {
      DoomedFrom(ces[..|ces| - 1], launchers, active, id);
      var ce :| ce in ces[..|ces| - 1] && ce.id == id;
      assert ce in ces;
    }
  }

  /** Identifiers are unique within `ces`. */
  predicate DistinctIds(ces: seq<ComputeEnv>) {
    forall i, j :: 0 <= i < j < |ces| ==> ces[i].id != ces[j].id
  }

  /** With unique identifiers, a kept or busy environment is never doomed. */
  lemma {:induction false} NotDoomed(ces: seq<ComputeEnv>, launchers: bool, active: set<nat>, ce: ComputeEnv)
    requires DistinctIds(ces) && ce in ces && (Kept(ce, launchers) || ce.id in active)
    ensures ce.id !in DoomedIds(ces, launchers, active)
  {
    var init := ces[..|ces| - 1];
    var last := ces[|ces| - 1];
    assert DistinctIds(init);
    if ce == last {
      forall x | x in init
        ensures x.id != ce.id
      {
        var j :| 0 <= j < |init| && init[j] == x;
        assert ces[j] == x;
      }
      if ce.id in DoomedIds(init, launchers, active) {
        DoomedFrom(init, launchers, active, ce.id);
      }
    } else {
      var i :| 0 <= i < |ces| && ces[i] == ce;
      assert i < |ces| - 1 && init[i] == ce;
      NotDoomed(init, launchers, active, ce);
    }
  }

  /**
   * The keep rule: when identifiers are unique, an environment survives the
   * cleanup exactly when it has the current version in a workspace with
   * launchers, or it is running jobs.
   */
  lemma CleanupRule(ces: seq<ComputeEnv>, launchers: bool, active: set<nat>, ce: ComputeEnv)
    requires DistinctIds(ces)
    ensures ce in Survivors(ces, DoomedIds(ces, launchers, active)) <==> ce in ces && (Kept(ce, launchers) || ce.id in active)
  {
    if ce in Survivors(ces, DoomedIds(ces, launchers, active)) {
      SurvivorsKept(ces, launchers, active, ce);
    }
    if ce in ces && (Kept(ce, launchers) || ce.id in active) {
      NotDoomed(ces, launchers, active, ce);
    }
  }

  class Workspace {
    const tower: Tower
    const orgId: nat
    /** The organization's members by email, as its populate step left them. */
    const orgMembers: map<string, Member>
    const stackName: string
    const fullName: string
    const name: string
    /** The project's users; absent when the organization uses teams. */
    const users: Option<Users>
    /** The project's teams and their roles; absent unless the organization uses teams. */
    const teams: Option<Dict<nat, Role>>
    var id: nat
    /** The participant of each member or team identifier added so far. */
    var participants: map<nat, Participant>

    constructor (tower: Tower, orgId: nat, orgMembers: map<string, Member>, stackName: string,
                 users: Option<Users>, teams: Option<Dict<nat, Role>>)
      ensures this.tower == tower && this.orgId == orgId && this.orgMembers == orgMembers
      ensures this.stackName == stackName && fullName == stackName && name == ValidName(stackName)
      ensures this.users == users && this.teams == teams
      ensures id == 0 && participants == map[]
    {
      this.tower := tower;
      this.orgId := orgId;
      this.orgMembers := orgMembers;
      this.stackName := stackName;
      fullName := stackName;
      name := ValidName(stackName);
      this.users := users;
      this.teams := teams;
      id := 0;
      participants := map[];
    }

    /**
     * `has_launchers`: some user of the listing or some team has a launching
     * role; for users, that is some user in the four upper tiers.
     */
    function HasLaunchers(): (b: bool)
      ensures b <==>
        || (users.Some? && Tier(users.value, Owners) + Tier(users.value, Admins)
                           + Tier(users.value, Maintainers) + Tier(users.value, Launchers) != [])
        || (teams.Some? && exists i :: 0 <= i < |teams.value| && teams.value[i].1 in LauncherRoles)
    {
      (users.Some? && (LaunchersAreUpperTiers(users.value); SomeLauncher(ListUsers(users.value))))
      || (teams.Some? && exists i :: 0 <= i < |teams.value| && teams.value[i].1 in LauncherRoles)
    }

    /** `create`: the workspace named `name` in the organization, created if missing. */
    method Create() returns (ws: WorkspaceRecord)
      requires tower.Valid()
      modifies tower`workspaces, tower`nextId
      ensures tower.Valid()
      ensures ws.name == name
      ensures match FindWorkspace(old(At(tower.workspaces, orgId)), name)
        case Some(w) =>
          ws == w && tower.workspaces == old(tower.workspaces) && tower.nextId == old(tower.nextId)
        case None =>
          && ws == WorkspaceRecord(old(tower.nextId), name, fullName)
          && tower.workspaces == old(tower.workspaces)[orgId := old(At(tower.workspaces, orgId)) + [ws]]
          && tower.nextId == old(tower.nextId) + 1
      ensures FindWorkspace(At(tower.workspaces, orgId), name) == Some(ws)
      ensures old(At(tower.workspaces, orgId)) <= At(tower.workspaces, orgId) && AgreeBut(tower.workspaces, old(tower.workspaces), orgId)
    {
      var listing := At(tower.workspaces, orgId);
      for i := 0 to |listing|
        invariant FindWorkspace(listing, name) == FindWorkspace(listing[i..], name)
      {
        assert listing[i..][1..] == listing[i + 1..];
        if listing[i].name == name {
          return listing[i];
        }
      }
      ws := tower.PostWorkspace(orgId, name, fullName);
      FindWorkspaceAppend(listing, ws);
    }

    /**
     * `add_participant`: registers one member (by email) or one team as a
     * participant, finding the existing participant when the server says it
     * already is one, and gives it `role`.
     */
    method AddParticipant(role: Role, user: Option<string>, teamId: Option<nat>) returns (r: Result<Participant, Error>)
      requires tower.Valid()
      modifies this`participants, tower`participants, tower`nextId
      ensures tower.Valid()
      ensures r.Ok? <==> (GivenUser(user) && !GivenTeam(teamId) && user.value in orgMembers)
                         || (!GivenUser(user) && GivenTeam(teamId))
      ensures GivenUser(user) == GivenTeam(teamId) ==> r == Err(InvalidParticipant)
      ensures GivenUser(user) && !GivenTeam(teamId) && user.value !in orgMembers ==> r == Err(KeyError(user.value))
      ensures r.Err? ==> participants == old(participants) && tower.participants == old(tower.participants)
                         && tower.nextId == old(tower.nextId)
      ensures r.Ok? && GivenUser(user) ==>
        var identifier := orgMembers[user.value].memberId;
        && Stands(r.value, identifier) && participants == old(participants)[identifier := r.value]
        && At(tower.participants, id) == Enrolled(old(At(tower.participants, id)), identifier, false, old(tower.nextId), tower.defaultRole, role)
        && LastMatch(At(tower.participants, id), identifier) == Some(r.value.(role := role))
      ensures r.Ok? && GivenTeam(teamId) ==>
        && Stands(r.value, teamId.value) && participants == old(participants)[teamId.value := r.value]
        && At(tower.participants, id) == Enrolled(old(At(tower.participants, id)), teamId.value, true, old(tower.nextId), tower.defaultRole, role)
        && LastMatch(At(tower.participants, id), teamId.value) == Some(r.value.(role := role))
      ensures r.Ok? ==> r.value.(role := role) in At(tower.participants, id)
      ensures AgreeBut(tower.participants, old(tower.participants), id)
    {
      var identifier: nat;
      var asTeam: bool;
      if GivenUser(user) && !GivenTeam(teamId) {
        if user.value !in orgMembers {
          return Err(KeyError(user.value));
        }
        identifier, asTeam := orgMembers[user.value].memberId, false;
      } else if !GivenUser(user) && GivenTeam(teamId) {
        identifier, asTeam := teamId.value, true;
      } else {
        return Err(InvalidParticipant);
      }
      var participant := Register(identifier, asTeam);
      participants := participants[identifier := participant];
      ghost var admitted := At(tower.participants, id);
      SetParticipantRole(participant, role);
      LastMatchWithRole(admitted, participant.participantId, role, identifier);
      r := Ok(participant);
    }

    /**
     * The request and the lookup of `add_participant`: the participant the
     * server reports as added, or the last one listed when it already is one.
     */
    method Register(identifier: nat, asTeam: bool) returns (participant: Participant)
      requires tower.Valid()
      modifies tower`participants, tower`nextId
      ensures tower.Valid()
      ensures At(tower.participants, id) == Admitted(old(At(tower.participants, id)), MemberKey(identifier, asTeam), TeamKey(identifier, asTeam), old(tower.nextId), tower.defaultRole)
      ensures LastMatch(At(tower.participants, id), identifier) == Some(participant)
      ensures AgreeBut(tower.participants, old(tower.participants), id)
    {
      var reply := tower.AddWorkspaceParticipant(id, MemberKey(identifier, asTeam), TeamKey(identifier, asTeam));
      if reply.AlreadyParticipant? {
        var found := LookupParticipant(identifier);
        ghost var p :| p in At(tower.participants, id) && SameParticipant(p, MemberKey(identifier, asTeam), TeamKey(identifier, asTeam));
        assert Stands(p, identifier);
        participant := found.value;
      } else {
        participant := reply.participant;
        assert Stands(participant, identifier);
      }
    }

    /** The lookup of `add_participant`: the last listed participant standing for `identifier`. */
    method LookupParticipant(identifier: nat) returns (found: Option<Participant>)
      ensures found == LastMatch(At(tower.participants, id), identifier)
    {
      var listing := PagedList(At(tower.participants, id));
      found := None;
      for i := 0 to |listing|
        invariant found == LastMatch(listing[..i], identifier)
      {
        LastMatchStep(listing, i, identifier);
        if Stands(listing[i], identifier) {
          found := Some(listing[i]);
        }
      }
      assert listing[..|listing|] == listing;
    }

    /** `set_participant_role`: the listed participant `p` ends up with `role`. */
    method SetParticipantRole(p: Participant, role: Role)
      requires tower.Valid() && p in At(tower.participants, id)
      modifies tower`participants
      ensures tower.Valid()
      ensures At(tower.participants, id) == WithRole(old(At(tower.participants, id)), p.participantId, role)
      ensures p.(role := role) in At(tower.participants, id)
      ensures forall w :: w != id ==> At(tower.participants, w) == old(At(tower.participants, w))
    {
      ghost var before := At(tower.participants, id);
      tower.PutParticipantRole(id, p.participantId, role);
      ghost var k :| 0 <= k < |before| && before[k] == p;
      assert At(tower.participants, id)[k] == p.(role := role);
    }

    /**
     * `populate`: adds every user of the listing with its role, then every
     * team with its role; the first failing addition ends it.
     */
    method Populate() returns (r: Result<(), Error>)
      requires tower.Valid()
      modifies this`participants, tower`participants, tower`nextId
      ensures tower.Valid()
      ensures r.Ok? <==>
        && (users.Some? ==> forall e :: e in ListUsers(users.value) ==> e.user != "" && e.user in orgMembers)
        && (teams.Some? ==> forall i :: 0 <= i < |teams.value| ==> teams.value[i].0 != 0)
      ensures r.Ok? && users.Some? ==>
        forall e :: e in ListUsers(users.value) ==> orgMembers[e.user].memberId in participants
      ensures r.Ok? && teams.Some? ==>
        forall i :: 0 <= i < |teams.value| ==> teams.value[i].0 in participants
      ensures r.Ok? ==> Populated()
      ensures AgreeBut(tower.participants, old(tower.participants), id)
    {
      if users.Some? {
        r := AddUsers(ListUsers(users.value));
        if r.Err? {
          return;
        }
      }
      if teams.Some? {
        ghost var middle, table := At(tower.participants, id), tower.participants;
        r := AddTeams(teams.value);
        AgreeButTrans(tower.participants, table, old(tower.participants), id);
        if r.Err? {
          return;
        }
        if users.Some? {
          ghost var wanted := MemberRoles(ListUsers(users.value), orgMembers);
          forall k | 0 <= k < |wanted| && Final(wanted, k) && !TeamListed(wanted[k].0)
            ensures Settled(At(tower.participants, id), wanted[k].0, wanted[k].1)
          {
            assert LastMatch(At(tower.participants, id), wanted[k].0) == LastMatch(middle, wanted[k].0);
          }
        }
      }
      r := Ok(());
    }

    /** Whether `identifier` is one of the workspace's teams. */
    predicate TeamListed(identifier: nat) {
      teams.Some? && exists j :: 0 <= j < |teams.value| && teams.value[j].0 == identifier
    }

    /** The first loop of `populate`: each listed user with its role. */
    method AddUsers(entries: seq<Entry>) returns (r: Result<(), Error>)
      requires tower.Valid()
      modifies this`participants, tower`participants, tower`nextId
      ensures tower.Valid()
      ensures r.Ok? <==> forall e :: e in entries ==> e.user != "" && e.user in orgMembers
      ensures r.Ok? ==> forall e :: e in entries ==> orgMembers[e.user].memberId in participants
      ensures r.Ok? ==> var wanted := MemberRoles(entries, orgMembers);
        Converged(At(tower.participants, id), wanted) && KeepsOthers(At(tower.participants, id), old(At(tower.participants, id)), wanted)
      ensures old(participants).Keys <= participants.Keys
      ensures AgreeBut(tower.participants, old(tower.participants), id)
    {
      ghost var ps0, wanted, keys0, table0 := At(tower.participants, id), MemberRoles(entries, orgMembers), participants.Keys, tower.participants;
      for i := 0 to |entries|
        invariant tower.Valid() && UsersJoined(entries, wanted, i, ps0, keys0, table0)
      {
        var added := AddUser(entries, i, wanted, ps0, keys0, table0);
        if added.Err? {
          return Err(added.error);
        }
      }
      assert wanted[..|entries|] == wanted;
      r := Ok(());
    }

    /**
     * After `i` rounds of the first loop of `populate`: each of the first
     * `i` users is a participant and, where its entry is the last for it,
     * holds its role; every other identifier keeps its participant of `ps0`,
     * and no other workspace changed.
     */
    ghost predicate UsersJoined(entries: seq<Entry>, wanted: seq<(nat, Role)>, i: nat, ps0: seq<Participant>, keys0: set<nat>, table0: map<nat, seq<Participant>>)
      requires i <= |entries| == |wanted|
      reads this`id, this`participants, tower`participants
    {
      && keys0 <= participants.Keys
      && (forall k :: 0 <= k < i ==> entries[k].user != "" && entries[k].user in orgMembers)
      && (forall k :: 0 <= k < i ==> orgMembers[entries[k].user].memberId in participants)
      && Converged(At(tower.participants, id), wanted[..i]) && KeepsOthers(At(tower.participants, id), ps0, wanted[..i])
      && AgreeBut(tower.participants, table0, id)
    }

    /** One round of the first loop of `populate`: the user of entry `i` joins with its role. */
    method AddUser(entries: seq<Entry>, i: nat, ghost wanted: seq<(nat, Role)>, ghost ps0: seq<Participant>, ghost keys0: set<nat>, ghost table0: map<nat, seq<Participant>>)
      returns (r: Result<Participant, Error>)
      requires tower.Valid() && i < |entries| && wanted == MemberRoles(entries, orgMembers)
      requires UsersJoined(entries, wanted, i, ps0, keys0, table0)
      modifies this`participants, tower`participants, tower`nextId
      ensures tower.Valid()
      ensures r.Ok? <==> entries[i].user != "" && entries[i].user in orgMembers
      ensures r.Ok? ==>
        && participants == old(participants)[orgMembers[entries[i].user].memberId := r.value]
        && UsersJoined(entries, wanted, i + 1, ps0, keys0, table0)
      ensures r.Err? ==> participants == old(participants) && tower.participants == old(tower.participants)
    {
      ghost var ps, n, table := At(tower.participants, id), tower.nextId, tower.participants;
      r := AddParticipant(entries[i].role, Some(entries[i].user), None);
      if r.Ok? {
        ConvergedStep(ps0, ps, wanted, i, false, n, tower.defaultRole);
        AgreeButTrans(tower.participants, table, table0, id);
      }
    }

    /**
     * After `i` rounds of the second loop of `populate`: each of the first
     * `i` teams is a participant and holds its role, every other identifier
     * keeps its participant of `ps0`, and no other workspace changed.
     */
    ghost predicate TeamsJoined(entries: Dict<nat, Role>, i: nat, ps0: seq<Participant>, keys0: set<nat>, table0: map<nat, seq<Participant>>)
      requires i <= |entries|
      reads this`id, this`participants, tower`participants
    {
      && keys0 <= participants.Keys
      && (forall k :: 0 <= k < i ==> entries[k].0 != 0 && entries[k].0 in participants)
      && Converged(At(tower.participants, id), entries[..i]) && KeepsOthers(At(tower.participants, id), ps0, entries[..i])
      && AgreeBut(tower.participants, table0, id)
    }

    /**
     * One round of the second loop of `populate`: the team of entry `i`
     * joins with its role.
     */
    method AddTeam(entries: Dict<nat, Role>, i: nat, ghost ps0: seq<Participant>, ghost keys0: set<nat>, ghost table0: map<nat, seq<Participant>>)
      returns (r: Result<Participant, Error>)
      requires tower.Valid() && i < |entries| && TeamsJoined(entries, i, ps0, keys0, table0)
      modifies this`participants, tower`participants, tower`nextId
      ensures tower.Valid()
      ensures r.Ok? <==> entries[i].0 != 0
      ensures r.Ok? ==> participants == old(participants)[entries[i].0 := r.value] && TeamsJoined(entries, i + 1, ps0, keys0, table0)
      ensures r.Err? ==> participants == old(participants) && tower.participants == old(tower.participants)
    {
      ghost var ps, n, table := At(tower.participants, id), tower.nextId, tower.participants;
      r := AddParticipant(entries[i].1, None, Some(entries[i].0));
      if r.Ok? {
        ConvergedStep(ps0, ps, entries, i, true, n, tower.defaultRole);
        AgreeButTrans(tower.participants, table, table0, id);
      }
    }

    /** The second loop of `populate`: each team with its role. */
    method AddTeams(entries: Dict<nat, Role>) returns (r: Result<(), Error>)
      requires tower.Valid()
      modifies this`participants, tower`participants, tower`nextId
      ensures tower.Valid()
      ensures r.Ok? <==> forall i :: 0 <= i < |entries| ==> entries[i].0 != 0
      ensures r.Ok? ==> forall i :: 0 <= i < |entries| ==> entries[i].0 in participants
      ensures r.Ok? ==>
        Converged(At(tower.participants, id), entries) && KeepsOthers(At(tower.participants, id), old(At(tower.participants, id)), entries)
      ensures old(participants).Keys <= participants.Keys
      ensures AgreeBut(tower.participants, old(tower.participants), id)
    {
      ghost var ps0, keys0, table0 := At(tower.participants, id), participants.Keys, tower.participants;
      for i := 0 to |entries|
        invariant tower.Valid() && TeamsJoined(entries, i, ps0, keys0, table0)
      {
        var added := AddTeam(entries, i, ps0, keys0, table0);
        if added.Err? {
          return Err(added.error);
        }
      }
      assert entries[..|entries|] == entries;
      r := Ok(());
    }

    /** `create_credentials`: the credentials named after the stack, created if missing. */
    method CreateCredentials() returns (r: Result<nat, Error>)
      requires tower.Valid()
      modifies tower`credentials, tower`nextId
      ensures tower.Valid()
      ensures match FindCredentials(old(At(tower.credentials, id)), stackName)
        case Some(c) =>
          && tower.credentials == old(tower.credentials) && tower.nextId == old(tower.nextId)
          && r == if Sound(c) then Ok(c.id) else Err(InvalidCredentials(stackName))
        case None =>
          && r == Ok(old(tower.nextId)) && tower.nextId == old(tower.nextId) + 1
          && tower.credentials == old(tower.credentials)[id := old(At(tower.credentials, id)) + [Credentials(r.value, stackName, Aws, false)]]
      ensures r.Ok? ==> FindCredentials(At(tower.credentials, id), stackName) == Some(Credentials(r.value, stackName, Aws, false))
      ensures tower.credentials == WithCredentials(old(tower.credentials), id, stackName, old(tower.nextId))
    {
      var listing := At(tower.credentials, id);
      for i := 0 to |listing|
        invariant FindCredentials(listing, stackName) == FindCredentials(listing[i..], stackName)
      {
        assert listing[i..][1..] == listing[i + 1..];
        if listing[i].name == stackName {
          if listing[i].provider != Aws || listing[i].deleted {
            return Err(InvalidCredentials(stackName));
          }
          return Ok(listing[i].id);
        }
      }
      var credentialsId := tower.PostCredentials(id, stackName);
      FindCredentialsAppend(listing, Credentials(credentialsId, stackName, Aws, false));
      r := Ok(credentialsId);
    }

    /** `generate_compute_environment`: the request for a new environment, with the project's credentials. */
    method GenerateComputeEnvironment(ceName: string, model: PricingModel) returns (r: Result<ComputeEnvRequest, Error>)
      requires tower.Valid()
      modifies tower`credentials, tower`nextId
      ensures tower.Valid()
      ensures r.Err? <==> exists c :: FindCredentials(old(At(tower.credentials, id)), stackName) == Some(c) && !Sound(c)
      ensures r.Err? ==> r.error == InvalidCredentials(stackName)
      ensures r.Ok? ==> r.value.name == ceName && r.value.model == model
      ensures r.Ok? ==> FindCredentials(At(tower.credentials, id), stackName) == Some(Credentials(r.value.credentialsId, stackName, Aws, false))
      ensures tower.credentials == WithCredentials(old(tower.credentials), id, stackName, old(tower.nextId))
      ensures tower.nextId >= old(tower.nextId)
    {
      var credentialsId := CreateCredentials();
      if credentialsId.Err? {
        return Err(credentialsId.error);
      }
      r := Ok(ComputeEnvRequest(ceName, model, credentialsId.value));
    }

    /**
     * `cleanup_compute_environments`: deletes every environment of the
     * workspace that is not kept; the server refuses those running jobs,
     * and the reconciler goes on.
     */
    method Cleanup()
      requires tower.Valid()
      modifies tower`computeEnvs
      ensures tower.Valid()
      ensures var before := old(At(tower.computeEnvs, id));
        At(tower.computeEnvs, id) == Survivors(before, DoomedIds(before, HasLaunchers(), tower.activeJobs))
      ensures AgreeBut(tower.computeEnvs, old(tower.computeEnvs), id)
    {
      var listing := At(tower.computeEnvs, id);
      ghost var launchers, active := HasLaunchers(), tower.activeJobs;
      SurvivorsNone(listing);
      for i := 0 to |listing|
        invariant tower.Valid()
        invariant At(tower.computeEnvs, id) == Survivors(listing, DoomedIds(listing[..i], launchers, active))
        invariant AgreeBut(tower.computeEnvs, old(tower.computeEnvs), id)
      {
        var ce := listing[i];
        ghost var doomed := DoomedIds(listing[..i], launchers, active);
        DoomedStep(listing, i, launchers, active);
        if !(EndsWith(ce.name, CeVersion) && HasLaunchers()) {
          ghost var envs := tower.computeEnvs;
          var message := tower.DeleteComputeEnv(id, ce.id);
          if ce.id !in active {
            AgreeButUpdate(envs, old(tower.computeEnvs), id, Survivors(At(envs, id), {ce.id}));
            SurvivorsTwice(listing, doomed, {ce.id});
            assert At(tower.computeEnvs, id) == Survivors(listing, doomed + {ce.id});
          }
        }
      }
      assert listing[..|listing|] == listing;
    }

    /** `set_primary_compute_environment`. */
    method SetPrimaryComputeEnvironment(ceId: nat)
      requires tower.Valid()
      modifies tower`primary
      ensures tower.Valid()
      ensures tower.primary == old(tower.primary)[id := ceId]
    {
      tower.PostPrimary(id, ceId);
    }

    /** The scan of `create_compute_environment`: the last usable environment with each name. */
    method FindComputeEnvs() returns (spot: Option<nat>, onDemand: Option<nat>)
      ensures spot == LastUsable(At(tower.computeEnvs, id), SpotName(stackName))
      ensures onDemand == LastUsable(At(tower.computeEnvs, id), OnDemandName(stackName))
    {
      var spotName, onDemandName := SpotName(stackName), OnDemandName(stackName);
      NamesDiffer(stackName);
      var listing := At(tower.computeEnvs, id);
      spot, onDemand := None, None;
      for i := 0 to |listing|
        invariant spot == LastUsable(listing[..i], spotName)
        invariant onDemand == LastUsable(listing[..i], onDemandName)
      {
        var ce := listing[i];
        LastUsableStep(listing, i, spotName);
        LastUsableStep(listing, i, onDemandName);
        if ce.platform == AwsBatch && (ce.status == Available || ce.status == Creating) {
          if ce.name == spotName {
            spot := Some(ce.id);
          } else if ce.name == onDemandName {
            onDemand := Some(ce.id);
          }
        }
      }
      assert listing[..|listing|] == listing;
    }

    /** One creation of `create_compute_environment`: generate the request and post it. */
    method PostComputeEnvironment(ceName: string, model: PricingModel) returns (r: Result<nat, Error>)
      requires tower.Valid()
      modifies tower`computeEnvs, tower`credentials, tower`nextId
      ensures tower.Valid()
      ensures r.Err? ==> r.error == InvalidCredentials(stackName) && tower.computeEnvs == old(tower.computeEnvs)
      ensures r.Ok? ==> tower.computeEnvs == old(tower.computeEnvs)[id := old(At(tower.computeEnvs, id)) + [ComputeEnv(r.value, ceName, AwsBatch, Creating)]]
      ensures tower.credentials == WithCredentials(old(tower.credentials), id, stackName, old(tower.nextId))
    {
      var data := GenerateComputeEnvironment(ceName, model);
      if data.Err? {
        return Err(data.error);
      }
      var ceId := tower.PostComputeEnv(id, data.value);
      r := Ok(ceId);
    }

    /**
     * `create_compute_environment`: finds the usable spot and on-demand
     * environments of the current version and creates whichever is missing;
     * a newly created spot environment becomes the primary one.
     */
    method CreateComputeEnvironment() returns (r: Result<CeIds, Error>)
      requires tower.Valid()
      modifies tower`computeEnvs, tower`credentials, tower`primary, tower`nextId
      ensures tower.Valid()
      ensures r.Err? ==> r.error == InvalidCredentials(stackName)
      ensures r.Ok? ==>
        var before := old(At(tower.computeEnvs, id));
        var spot := LastUsable(before, SpotName(stackName));
        var onDemand := LastUsable(before, OnDemandName(stackName));
        && (spot.Some? ==> r.value.spot == spot.value)
        && (onDemand.Some? ==> r.value.onDemand == onDemand.value)
        && At(tower.computeEnvs, id) == Provisioned(before, stackName, r.value)
        && tower.primary == (if spot.None? then old(tower.primary)[id := r.value.spot] else old(tower.primary))
      ensures var before := old(At(tower.computeEnvs, id));
        tower.credentials ==
          if LastUsable(before, SpotName(stackName)).Some? && LastUsable(before, OnDemandName(stackName)).Some?
          then old(tower.credentials)
          else WithCredentials(old(tower.credentials), id, stackName, old(tower.nextId))
      ensures AgreeBut(tower.computeEnvs, old(tower.computeEnvs), id)
    {
      var spot, onDemand := FindComputeEnvs();
      r := Provision(spot, onDemand);
    }

    /**
     * The two `if compute_env_ids[...] is None` blocks of
     * `create_compute_environment`, given the environments found: creates the
     * missing ones, and a new spot environment becomes the primary one.
     */
    method Provision(spot: Option<nat>, onDemand: Option<nat>) returns (r: Result<CeIds, Error>)
      requires tower.Valid()
      modifies tower`computeEnvs, tower`credentials, tower`primary, tower`nextId
      ensures tower.Valid()
      ensures r.Err? ==> r.error == InvalidCredentials(stackName)
      ensures r.Ok? ==>
        && (spot.Some? ==> r.value.spot == spot.value)
        && (onDemand.Some? ==> r.value.onDemand == onDemand.value)
        && At(tower.computeEnvs, id) == old(At(tower.computeEnvs, id))
             + (if spot.None? then [ComputeEnv(r.value.spot, SpotName(stackName), AwsBatch, Creating)] else [])
             + (if onDemand.None? then [ComputeEnv(r.value.onDemand, OnDemandName(stackName), AwsBatch, Creating)] else [])
        && tower.primary == (if spot.None? then old(tower.primary)[id := r.value.spot] else old(tower.primary))
      ensures tower.credentials ==
        if spot.Some? && onDemand.Some? then old(tower.credentials)
        else WithCredentials(old(tower.credentials), id, stackName, old(tower.nextId))
      ensures AgreeBut(tower.computeEnvs, old(tower.computeEnvs), id)
    {
      var spotId := ProvideComputeEnvironment(spot, SpotName(stackName), Spot, true);
      if spotId.Err? {
        return Err(spotId.error);
      }
      ghost var middle, nextId := tower.computeEnvs, tower.nextId;
      var onDemandId := ProvideComputeEnvironment(onDemand, OnDemandName(stackName), Ec2, false);
      AgreeButTrans(tower.computeEnvs, middle, old(tower.computeEnvs), id);
      if spot.None? {
        WithCredentialsTwice(old(tower.credentials), id, stackName, old(tower.nextId), nextId);
      }
      if onDemandId.Err? {
        return Err(onDemandId.error);
      }
      r := Ok(CeIds(spotId.value, onDemandId.value));
    }

    /**
     * One `if compute_env_ids[...] is None` block of `create_compute_environment`:
     * keeps the environment found, or creates one with the given name and
     * pricing model, and makes a new one the primary environment if asked.
     */
    method ProvideComputeEnvironment(found: Option<nat>, ceName: string, model: PricingModel, primary: bool) returns (r: Result<nat, Error>)
      requires tower.Valid()
      modifies tower`computeEnvs, tower`credentials, tower`primary, tower`nextId
      ensures tower.Valid()
      ensures found.Some? ==>
        && r == Ok(found.value) && tower.computeEnvs == old(tower.computeEnvs) && tower.primary == old(tower.primary)
        && tower.nextId == old(tower.nextId)
      ensures r.Err? ==> r.error == InvalidCredentials(stackName)
      ensures found.None? && r.Ok? ==>
        && At(tower.computeEnvs, id) == old(At(tower.computeEnvs, id)) + [ComputeEnv(r.value, ceName, AwsBatch, Creating)]
        && tower.primary == if primary then old(tower.primary)[id := r.value] else old(tower.primary)
      ensures tower.credentials == if found.Some? then old(tower.credentials) else WithCredentials(old(tower.credentials), id, stackName, old(tower.nextId))
      ensures AgreeBut(tower.computeEnvs, old(tower.computeEnvs), id)
    {
      if found.Some? {
        return Ok(found.value);
      }
      r := PostComputeEnvironment(ceName, model);
      if r.Ok? {
        AgreeButUpdate(old(tower.computeEnvs), old(tower.computeEnvs), id, At(tower.computeEnvs, id));
        if primary {
          SetPrimaryComputeEnvironment(r.value);
        }
      }
    }

    /**
     * The rest of the constructor: get or create the workspace, add its
     * participants, clean up its compute environments, and provision them
     * when someone can launch.
     */
    method Setup() returns (r: Result<(), Error>)
      requires tower.Valid()
      modifies this`id, this`participants, tower`workspaces, tower`participants, tower`computeEnvs
      modifies tower`credentials, tower`primary, tower`nextId
      ensures tower.Valid()
      ensures FindWorkspace(At(tower.workspaces, orgId), name).Some? && FindWorkspace(At(tower.workspaces, orgId), name).value.id == id
      ensures old(At(tower.workspaces, orgId)) <= At(tower.workspaces, orgId) && AgreeBut(tower.workspaces, old(tower.workspaces), orgId)
      ensures r.Ok? ==> Populated()
      ensures r.Ok? ==> Rotation(At(old(tower.computeEnvs), id), old(tower.primary))
      ensures AgreeBut(tower.participants, old(tower.participants), id)
      ensures AgreeBut(tower.computeEnvs, old(tower.computeEnvs), id)
      ensures AgreeBut(tower.credentials, old(tower.credentials), id) && At(old(tower.credentials), id) <= At(tower.credentials, id)
      ensures r.Ok? ==> SetUp(old(tower.participants), old(tower.computeEnvs), old(tower.credentials), old(tower.primary))
    {
      var ws := Create();
      id := ws.id;
      r := Reconcile();
    }

    /** The constructor once the workspace is known: its participants, then its compute environments. */
    method Reconcile() returns (r: Result<(), Error>)
      requires tower.Valid()
      modifies this`participants, tower`participants, tower`computeEnvs, tower`credentials, tower`primary, tower`nextId
      ensures tower.Valid()
      ensures r.Ok? ==> Populated() && Rotation(old(At(tower.computeEnvs, id)), old(tower.primary))
      ensures AgreeBut(tower.participants, old(tower.participants), id)
      ensures AgreeBut(tower.computeEnvs, old(tower.computeEnvs), id)
      ensures AgreeBut(tower.credentials, old(tower.credentials), id) && old(At(tower.credentials, id)) <= At(tower.credentials, id)
    {
      r := Populate();
      if r.Err? {
        return;
      }
      r := Rotate();
    }

    /**
     * The end of the constructor: cleans up the compute environments, and
     * provisions them when someone can launch.
     */
    method Rotate() returns (r: Result<(), Error>)
      requires tower.Valid()
      modifies tower`computeEnvs, tower`credentials, tower`primary, tower`nextId
      ensures tower.Valid()
      ensures r.Err? ==> r.error == InvalidCredentials(stackName)
      ensures r.Ok? ==> Rotation(old(At(tower.computeEnvs, id)), old(tower.primary))
      ensures AgreeBut(tower.computeEnvs, old(tower.computeEnvs), id)
      ensures tower.credentials == old(tower.credentials)
        || (HasLaunchers() && tower.credentials == WithCredentials(old(tower.credentials), id, stackName, old(tower.nextId)))
    {
      ghost var ces0, primary0 := At(tower.computeEnvs, id), tower.primary;
      var launchers := HasLaunchers();
      Cleanup();
      if launchers {
        ghost var cleanedAll := tower.computeEnvs;
        var ids := CreateComputeEnvironment();
        AgreeButTrans(tower.computeEnvs, cleanedAll, old(tower.computeEnvs), id);
        if ids.Err? {
          return Err(ids.error);
        }
        RotatedProvisioned(ces0, primary0, At(tower.computeEnvs, id), tower.primary, id, stackName, tower.activeJobs, ids.value);
      }
      r := Ok(());
      ghost var ces := At(tower.computeEnvs, id);
      forall ce | ce in ces
        ensures Kept(ce, launchers) || ce.id in tower.activeJobs
      {
        RotatedCurrent(ces0, primary0, ces, tower.primary, id, stackName, launchers, tower.activeJobs, ce);
      }
    }

    /**
     * The outcome of the rotation of the workspace's compute environments,
     * from `ces0` with primaries `primary0`: the cleanup and the provisioning
     * the rotation describes, both environments usable when someone can
     * launch, and every environment left current or running jobs.
     */
    ghost predicate Rotation(ces0: seq<ComputeEnv>, primary0: map<nat, nat>)
      reads this`id, tower`computeEnvs, tower`primary
    {
      && Rotated(ces0, primary0, At(tower.computeEnvs, id), tower.primary, id, stackName, HasLaunchers(), tower.activeJobs)
      && (HasLaunchers() ==>
            && LastUsable(At(tower.computeEnvs, id), SpotName(stackName)).Some?
            && LastUsable(At(tower.computeEnvs, id), OnDemandName(stackName)).Some?)
      && (forall ce :: ce in At(tower.computeEnvs, id) ==> Kept(ce, HasLaunchers()) || ce.id in tower.activeJobs)
    }

    /**
     * The outcome of `Setup` from participants `participants0`, compute
     * environments `computeEnvs0`, credentials `credentials0` and primaries
     * `primary0`: the participants are `Populated`, the environments are the
     * `Rotation` of this workspace's old ones, no other workspace's
     * participants, environments or credentials change, and this
     * workspace's credentials are only appended to.
     */
    ghost predicate SetUp(participants0: map<nat, seq<Participant>>, computeEnvs0: map<nat, seq<ComputeEnv>>,
                          credentials0: map<nat, seq<Credentials>>, primary0: map<nat, nat>)
      reads this`id, tower`participants, tower`computeEnvs, tower`credentials, tower`primary
    {
      && Populated()
      && Rotation(At(computeEnvs0, id), primary0)
      && AgreeBut(tower.participants, participants0, id)
      && AgreeBut(tower.computeEnvs, computeEnvs0, id)
      && AgreeBut(tower.credentials, credentials0, id) && At(credentials0, id) <= At(tower.credentials, id)
    }

    /** Every user and team of the listing has, as a participant, the role of its last entry. */
    ghost predicate Populated()
      reads this`id, tower`participants
    {
      && (users.Some? ==>
            var wanted := MemberRoles(ListUsers(users.value), orgMembers);
            forall k :: 0 <= k < |wanted| && Final(wanted, k) && !TeamListed(wanted[k].0) ==>
              Settled(At(tower.participants, id), wanted[k].0, wanted[k].1))
      && (teams.Some? ==> Converged(At(tower.participants, id), teams.value))
    }
  }
}
