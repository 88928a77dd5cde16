# Tower project reconciler, modelled in Dafny

This project models the reconciler in `bin/configure-tower-projects.py`. The
reconciler reads project configurations and pushes their users, teams,
workspaces and compute environments into a Nextflow Tower organization. The
model covers these parts:

- **Desired state** (`Projects`, `Arns`, `Roles`):
  - which configuration files are read, and when a configuration is valid;
  - how the e-mail of every user is parsed out of an assumed-role ARN;
  - how read-write ARNs become maintainers and read-only ARNs become viewers;
  - how `Users.list_users` flattens the five role tiers and `Users.list_teams`
    regroups them.
- **Naming and paging** (`Client`):
  - the name rule of `get_valid_name`;
  - the offset loop of `paged_request`, against a list endpoint given as a
    function from offset to page.
- **The remote** (`Remote`): Tower is a class holding the server's state.
  - It keeps, per organization, the members, teams and workspaces.
  - It keeps, per team, the member identifiers.
  - It keeps, per workspace, the participants, credentials, compute
    environments and the primary environment.
  - Each endpoint the reconciler calls is a method with the effect an honest
    server has.
- **Reconciliation** (`Workspaces`, `Organizations`): `TowerWorkspace` and
  `TowerOrganization` become classes over that remote. Their methods carry
  get-or-create contracts, the participant rules, team convergence, the
  compute-environment keep/delete rule and the provisioning of exactly the
  missing environments.

Smaller modules:
- `Wrappers` holds `Option`, `Result` and the exceptions the reconciler
  raises (`Error`).
- `Text` holds the few string operations used.
- `Dicts` models Python's insertion-ordered `dict` as a sequence of pairs.

The ARN grammar follows the regular expression of `extract_emails` exactly.
The top-level-domain class `[A-Z|a-z]` also admits `|`, and
`Arns.ExampleBarInTld` states this.

The workspace contracts are stated through a few specification functions of
`Workspaces`:
- `Enrolled` is the participant listing after `add_participant`: the server
  admits the member or team (`Remote.Admitted`), then the last participant
  standing for it takes the role.
- `Converged` says every identifier of a wanted list holds the role of its
  last entry; `KeepsOthers` says every identifier the list does not name keeps
  its participant. `Workspace.Populated` applies both to the workspace's own
  users and teams.
- `WithCredentials` is the credentials of every workspace after
  `create_credentials`.
- `Rotated` is the outcome of the cleanup followed by the provisioning: the
  survivors of the keep/delete rule, plus exactly the missing spot and
  on-demand environments, with a new spot environment as the primary one.
  `Workspace.Rotation` adds that both are then usable when someone can launch,
  and that every environment left is current or running jobs.
- `Workspace.SetUp` is the outcome of the workspace constructor: the
  participants are `Populated`, the environments are the `Rotation` of the
  workspace's old ones, no other workspace's participants, environments or
  credentials change, and the workspace's own credentials are only appended to.

## Model

| member | source | states |
|---|---|---|
| Client.ValidName | bin/configure-tower-projects.py:319-328 | the name has the length of the full name; every character is in `[A-Za-z0-9_-]`; characters already in that class are kept |
| Client.ValidNameKeeps | bin/configure-tower-projects.py:328 | a name made only of allowed characters is returned unchanged |
| Client.ValidNameReplaces | bin/configure-tower-projects.py:328 | every disallowed character becomes exactly one `-` at the same position |
| Client.ValidNameFixed | bin/configure-tower-projects.py:328 | the rule leaves a name unchanged if and only if all its characters are allowed |
| Client.ValidNameIdempotent | bin/configure-tower-projects.py:328 | applying the rule twice gives the same name as applying it once |
| Client.PagedRequest | bin/configure-tower-projects.py:356-377 | the requests and items form a paged trace: each request asks for 50 items at an offset equal to the count yielded so far; items are the pages' items in order; it stops once the count reaches the reported total |
| Client.SentAt | bin/configure-tower-projects.py:366-373 | request `k` of a trace has `max=50` and `offset` equal to the count of items before it; every request after the first was sent because the count was still below the previous total |
| Client.YieldedAppend | bin/configure-tower-projects.py:374-377 | one more reply appends exactly its page's items to what was yielded |
| Client.ServedProgress | bin/configure-tower-projects.py:370-373 | an endpoint serving a listing and reporting its size lets the loop make progress, so the loop terminates |
| Client.HonestPaging | bin/configure-tower-projects.py:356-377 | against an endpoint that serves a listing and reports its size, the paged request yields exactly the whole listing, in order |
| Client.ServedPrefix | bin/configure-tower-projects.py:370-377 | against such an endpoint, the items yielded by the first `k` requests form a prefix of the listing |
| Client.PagedList | bin/configure-tower-projects.py:356-377 | a paged listing of an honest endpoint returns the endpoint's whole listing |
| Client.MissingTotal | bin/configure-tower-projects.py:373 | a first reply without `totalSize` ends the loop after one request at offset 0, yielding that page |
| Projects.ListProjects | bin/configure-tower-projects.py:139-153 | a walked file is listed if and only if its name ends with `-project.yaml`; the listing is never longer than the walk |
| Projects.ListProjectsAppend | bin/configure-tower-projects.py:139-153 | listing a walk made of two parts gives the files of the first part followed by those of the second, so walk order is kept |
| Projects.ValidateConfig | bin/configure-tower-projects.py:155-180 | Ok exactly when `stack_name` is present, `template_path` is `tower-project.yaml`, and `parameters` is present with a read-write or a read-only ARN list; otherwise `InvalidTowerProject`, naming the stack when there is one |
| Projects.ExtractEmails | bin/configure-tower-projects.py:198-222 | succeeds if and only if every ARN parses; then one email per ARN, in order; otherwise the error names the first ARN that does not parse |
| Projects.ExtractEmailsMatch | bin/configure-tower-projects.py:207-216 | on success, email `i` is the session-name group of a full regex match of ARN `i` |
| Projects.ExtractEmailsFail | bin/configure-tower-projects.py:212-221 | on failure, the ARN named in the error matches for no email, and every earlier ARN matches |
| Projects.ProjectUsers | bin/configure-tower-projects.py:232-240 | a valid configuration with parseable ARNs gives its stack, with the read-write emails as maintainers, the read-only emails as viewers and the other tiers empty; otherwise the validation or ARN error |
| Projects.ProjectResultsAt | bin/configure-tower-projects.py:232-240 | the result for configuration `i` is that configuration's own contribution |
| Projects.Insert | bin/configure-tower-projects.py:238 | assigning pairs into a dictionary keeps keys distinct; a key is present if and only if it was present or some pair assigns it |
| Projects.InsertOther | bin/configure-tower-projects.py:238 | keys no pair assigns keep their value |
| Projects.InsertLastWins | bin/configure-tower-projects.py:238 | a key maps to the value of the last pair that assigns it |
| Projects.ProjectResultsOk | bin/configure-tower-projects.py:231-240 | every configuration contributes if and only if every one is valid with parseable ARNs |
| Projects.ExtractUsers | bin/configure-tower-projects.py:224-241 | succeeds if and only if every configuration contributes; on success stack names are distinct keys |
| Projects.ExtractUsersFail | bin/configure-tower-projects.py:192-196 | a failure is the error of the first failing configuration, and all earlier ones succeed |
| Projects.ExtractUsersKeys | bin/configure-tower-projects.py:231-241 | the projects of the result are exactly the stacks of the configurations |
| Projects.ExtractUsersLastWins | bin/configure-tower-projects.py:238-240 | a stack named more than once gets the users of its last configuration |
| Arns.DigitRun | bin/configure-tower-projects.py:208 | the length of the leading run of digits: all digits, followed by a non-digit or the end |
| Arns.DigitRunConcat | bin/configure-tower-projects.py:208 | a digit string followed by a non-digit has a digit run of exactly its own length |
| Arns.SplitHostOf | bin/configure-tower-projects.py:209 | a host built from a domain and a dot-free TLD splits back into them at its last dot |
| Arns.SplitHostJoins | bin/configure-tower-projects.py:209 | the pieces of a host split rejoin to the host |
| Arns.SplitEmailOf | bin/configure-tower-projects.py:209 | an email with an `@`-free local part and a dot-free TLD splits back into its three parts |
| Arns.SplitEmailJoins | bin/configure-tower-projects.py:209 | the pieces of an email split rejoin to the email |
| Arns.ValidEmailSound | bin/configure-tower-projects.py:209 | an email `ValidEmail` accepts matches the session-name group |
| Arns.ValidEmailComplete | bin/configure-tower-projects.py:209 | every string matching the session-name group is accepted |
| Arns.SplitRolePathOf | bin/configure-tower-projects.py:208-209 | a slash-free role and a session name split back at the first slash |
| Arns.SplitRolePathJoins | bin/configure-tower-projects.py:208-209 | the pieces of a role-path split rejoin, the role being slash-free |
| Arns.SplitAccountOf | bin/configure-tower-projects.py:208 | a digit account followed by `:assumed-role/` and a path splits back into account, role and session |
| Arns.SplitAccountJoins | bin/configure-tower-projects.py:208 | the pieces of an account split rejoin, the account being digits |
| Arns.SplitArnOf | bin/configure-tower-projects.py:207-210 | an ARN built from a digit account and a slash-free role splits back into its pieces |
| Arns.SplitArnJoins | bin/configure-tower-projects.py:207-210 | the pieces of an ARN split rejoin to it, with a digit account and a slash-free role |
| Arns.ParseArnComplete | bin/configure-tower-projects.py:207-215 | every ARN built from matching groups parses to its session name |
| Arns.ParseArnCorrect | bin/configure-tower-projects.py:207-215 | the parser returns an email if and only if the whole ARN matches the regex with that session name |
| Arns.SessionsMatch | bin/configure-tower-projects.py:212-216 | the parse of ARN `i` of a list agrees with the regex |
| Arns.ExampleBarInTld | bin/configure-tower-projects.py:209 | the TLD class also admits `\|`, so `jane@example.c\|` is a valid session name |
| Arns.SessionNeedsAt | bin/configure-tower-projects.py:209 | an ARN whose session name has no `@` is refused |
| Roles.ListUsersMember | bin/configure-tower-projects.py:103-113 | `list_users` yields an entry if and only if the user is in that group and the role is the group's role |
| Roles.ListUsersShape | bin/configure-tower-projects.py:103-113 | `list_users` yields every user of every tier once, tier by tier from owners to viewers, each tagged with its group's role |
| Roles.ListOfOrdered | bin/configure-tower-projects.py:110-113 | entries come group after group in visiting order |
| Roles.LaunchersAreUpperTiers | bin/configure-tower-projects.py:411-416 | some listed role may launch if and only if owners, admins, maintainers or launchers is non-empty |
| Roles.ListTeams | bin/configure-tower-projects.py:115-126 | the method that fills the grouping returns, per non-empty group in group order, that group's users in order with its role |
| Roles.FoldTiers | bin/configure-tower-projects.py:123-125 | appending the listing entry by entry builds one list per non-empty tier, holding that tier |
| Roles.ItemsGrouped | bin/configure-tower-projects.py:126 | the items of that grouping are the teams of the tiers, in key order |
| Roles.TeamsShape | bin/configure-tower-projects.py:115-126 | the teams are in strictly increasing group order; a team is yielded if and only if it holds its whole non-empty tier with its role; together they list every user once |
| Roles.TeamsOfOrdered | bin/configure-tower-projects.py:126 | teams of increasing tiers come in strictly increasing group order |
| Roles.TeamRole | bin/configure-tower-projects.py:126 | each team carries its group's role |
| Dicts.Get | bin/configure-tower-projects.py:234-235 | `d.get(k)` is absent if and only if `k` is not a key; a present value is paired with `k` |
| Dicts.PutGet | bin/configure-tower-projects.py:238 | after `d[k] = v`, `k` maps to `v` and every other key keeps its value |
| Dicts.PutKeys | bin/configure-tower-projects.py:238 | assigning a present key keeps the key order; a new key is appended |
| Dicts.PutEntries | bin/configure-tower-projects.py:856 | every entry after an assignment is the new entry or an old one |
| Dicts.PutKeepsDistinct | bin/configure-tower-projects.py:238 | assignment keeps keys distinct |
| Text.SplitEnclosed | bin/configure-tower-projects.py:760 | a separator-free word between two separators is piece 1 of the split |
| Remote.Tower.PostOrg | bin/configure-tower-projects.py:734-735 | a new organization gets a fresh identifier and is appended |
| Remote.Tower.AddOrgMember | bin/configure-tower-projects.py:749-753 | an email already held by a member gives the "User '<name>' is already a member" message; otherwise a new member with a fresh identifier is appended |
| Remote.Tower.AddTeamMember | bin/configure-tower-projects.py:786 | a member already in the team gives the "already associated" message; an organization member is appended to the team; a non-member gets a message without a member |
| Remote.Tower.DeleteTeamMember | bin/configure-tower-projects.py:804-805 | the member identifier leaves the team and nothing else changes |
| Remote.Tower.PostTeam | bin/configure-tower-projects.py:824-826 | a new team gets a fresh identifier and no members |
| Remote.Tower.PostWorkspace | bin/configure-tower-projects.py:445-446 | a new workspace gets a fresh identifier and is appended to the organization's workspaces |
| Remote.Tower.AddWorkspaceParticipant | bin/configure-tower-projects.py:480-484 | a member or team that already participates gives "Already a participant" and nothing changes; otherwise a participant numbered by the next identifier, with the default role, is appended; the workspace listing stays numbered |
| Remote.Tower.PutParticipantRole | bin/configure-tower-projects.py:507-511 | the participant with that identifier gets the role, the others are unchanged, and the listing stays numbered |
| Remote.Tower.PostCredentials | bin/configure-tower-projects.py:552-553 | new, undeleted AWS credentials with a fresh identifier are appended |
| Remote.Tower.DeleteComputeEnv | bin/configure-tower-projects.py:570-571 | an environment with active jobs stays and the reply says so; any other is removed |
| Remote.Tower.PostComputeEnv | bin/configure-tower-projects.py:659-660 | a new AWS Batch environment, still being created, with a fresh identifier is appended |
| Remote.Tower.PostPrimary | bin/configure-tower-projects.py:674-676 | the environment becomes the workspace's primary one |
| Remote.FindEmail | bin/configure-tower-projects.py:749-753 | the member found is the first one of the listing with the email; none found means no member has it |
| Remote.Without | bin/configure-tower-projects.py:804-805 | the team list keeps exactly its other identifiers |
| Remote.Survivors | bin/configure-tower-projects.py:564-570 | an environment survives if and only if it was listed and its identifier is not removed |
| Remote.SurvivorsTwice | bin/configure-tower-projects.py:564-575 | removing two sets of environments one after the other removes their union |
| Remote.Joined | bin/configure-tower-projects.py:786-794 | after a member joins a team, the team holds exactly its old members and the new one; other teams are unchanged |
| Remote.WithRole | bin/configure-tower-projects.py:507-511 | only the participant with the given identifier changes, and only its role |
| Remote.Admitted | bin/configure-tower-projects.py:480-484 | the server's addition only ever appends, at most one participant |
| Remote.NumberedAppend | bin/configure-tower-projects.py:480-484 | appending a participant with one key and the next identifier keeps a listing numbered |
| Remote.NumberedWithRole | bin/configure-tower-projects.py:507-511 | changing a role keeps a listing numbered |
| Workspaces.LastMatch | bin/configure-tower-projects.py:486-489 | the participant found stands for the identifier as a member or a team, and no later participant does; none found means none stands for it |
| Workspaces.LastMatchStep | bin/configure-tower-projects.py:486-489 | scanning one more participant updates the last match exactly as the loop does |
| Workspaces.LastMatchWithRole | bin/configure-tower-projects.py:496-497 | giving a participant a role leaves the last match of every identifier in place, with the new role when it is that participant |
| Workspaces.EnrolledRole | bin/configure-tower-projects.py:480-497 | after `add_participant`, the last participant standing for the identifier is the admitted one, with the requested role |
| Workspaces.EnrolledKeeps | bin/configure-tower-projects.py:480-497 | in a numbered listing, adding one member or team leaves the last participant of every other identifier as it was |
| Workspaces.AdmittedKeeps | bin/configure-tower-projects.py:480-484 | the server's addition keeps the listing numbered and adds nothing standing for another identifier |
| Workspaces.WithRoleKeeps | bin/configure-tower-projects.py:496-497 | in a numbered listing, giving one identifier's participant a role leaves every other identifier's last participant alone |
| Workspaces.NumberedDistinct | bin/configure-tower-projects.py:480-484 | two places of a numbered listing hold different participant identifiers |
| Workspaces.EnrolledTwice | bin/configure-tower-projects.py:448-498 | adding the same member or team twice leaves the listing that one addition with the second role leaves: `add_participant` is idempotent up to the last role |
| Workspaces.WithRoleTwice | bin/configure-tower-projects.py:507-511 | the second role given to a participant replaces the first |
| Workspaces.ConvergedStep | bin/configure-tower-projects.py:513-520 | adding the next wanted identifier keeps every earlier one at the role of its last entry and leaves identifiers not wanted alone |
| Workspaces.MemberRoles | bin/configure-tower-projects.py:515-517 | each listed user known to the organization is paired with its member identifier and role, in listing order |
| Workspaces.FindWorkspace | bin/configure-tower-projects.py:433-435 | the workspace found is the first one with the name; none found means none has it |
| Workspaces.FindWorkspaceAppend | bin/configure-tower-projects.py:436-446 | a workspace created because none had its name is the one a new scan finds |
| Workspaces.FindWorkspaceGrows | bin/configure-tower-projects.py:433-446 | appending workspaces never hides the first one with a name |
| Workspaces.ListsGrows | bin/configure-tower-projects.py:433-435 | a workspace listed under a name stays listed as workspaces are appended |
| Workspaces.FindWorkspaceLists | bin/configure-tower-projects.py:433-435 | the scan finds a workspace exactly when one with that name is listed |
| Workspaces.FindCredentials | bin/configure-tower-projects.py:532-533 | the credentials found are the first ones with the stack name; none found means none have it |
| Workspaces.FindCredentialsAppend | bin/configure-tower-projects.py:532-553 | after creating missing credentials, a new scan finds them |
| Workspaces.WithCredentials | bin/configure-tower-projects.py:522-553 | the credentials of every workspace after `create_credentials`: only the workspace's own list changes, only by appending, and it then holds credentials with the name |
| Workspaces.WithCredentialsTwice | bin/configure-tower-projects.py:522-553 | creating the credentials a second time changes nothing |
| Workspaces.NamesDiffer | bin/configure-tower-projects.py:642-643 | the spot and on-demand names of a stack never coincide |
| Workspaces.LastUsable | bin/configure-tower-projects.py:648-655 | an identifier is found if and only if some AWS Batch environment with that name is available or being created; it is the identifier of the last such environment |
| Workspaces.LastUsableAppend | bin/configure-tower-projects.py:648-655 | a later usable environment with the name overrides earlier ones |
| Workspaces.Provisioned | bin/configure-tower-projects.py:657-665 | provisioning only appends to the listing, at most two environments |
| Workspaces.ProvisionedUsable | bin/configure-tower-projects.py:657-666 | after provisioning, the reported spot and on-demand identifiers are the last usable environments with those names |
| Workspaces.RotatedProvisioned | bin/configure-tower-projects.py:400-402 | cleanup followed by provisioning of the missing environments is a rotation |
| Workspaces.NamesCurrent | bin/configure-tower-projects.py:642-643 | the spot and on-demand names both end with the current version |
| Workspaces.RotatedCurrent | bin/configure-tower-projects.py:400-402 | after a rotation every environment has the current version in a workspace with launchers, or is running jobs |
| Workspaces.SurvivorsKept | bin/configure-tower-projects.py:564-575 | every environment left after cleanup has the current version in a workspace with launchers, or has active jobs |
| Workspaces.DoomedHas | bin/configure-tower-projects.py:567-570 | every listed environment that is neither kept nor running jobs is deleted |
| Workspaces.DoomedFrom | bin/configure-tower-projects.py:569-570 | only listed environments are deleted |
| Workspaces.NotDoomed | bin/configure-tower-projects.py:567-571 | with unique identifiers, a kept or busy environment is never deleted |
| Workspaces.CleanupRule | bin/configure-tower-projects.py:564-575 | with unique identifiers, an environment survives cleanup if and only if it was listed and either is kept (current version, launchers present) or has active jobs |
| Workspaces.Workspace.constructor | bin/configure-tower-projects.py:381-398 | the workspace is named after the stack, its Tower name follows the name rule, and it has users or teams and an empty participant cache |
| Workspaces.Workspace.HasLaunchers | bin/configure-tower-projects.py:404-422 | true if and only if owners, admins, maintainers or launchers is non-empty, or some team's role may launch |
| Workspaces.Workspace.Create | bin/configure-tower-projects.py:424-446 | returns the first workspace with the name without change, or creates one with that name and full name |
| Workspaces.Workspace.AddParticipant | bin/configure-tower-projects.py:448-498 | succeeds if and only if exactly one of a non-empty user known to the organization or a non-zero team is given; neither or both gives `ValueError`, an unknown user `KeyError`, and failures change nothing; on success the participant is cached, the workspace listing becomes exactly `Enrolled` of the old one (admitted by the server, then its last participant standing for the identifier takes the role), that last participant is the returned one with the role, and other workspaces are unchanged |
| Workspaces.Workspace.Register | bin/configure-tower-projects.py:480-493 | the listing becomes the server's admission of the member or team, and the participant returned is the last one standing for it; other workspaces are unchanged |
| Workspaces.Workspace.LookupParticipant | bin/configure-tower-projects.py:484-490 | the lookup returns the last listed participant for the identifier |
| Workspaces.Workspace.SetParticipantRole | bin/configure-tower-projects.py:500-511 | the participant ends up with the role; other workspaces are unchanged |
| Workspaces.Workspace.Populate | bin/configure-tower-projects.py:513-520 | succeeds if and only if every listed user is a non-empty known member and every team identifier is non-zero; then every user's member and every team is a cached participant, every team holds the role of its last entry, every user whose member identifier is not also a listed team holds the role of its last entry, and other workspaces are unchanged |
| Workspaces.Workspace.AddUsers | bin/configure-tower-projects.py:515-517 | every user is added if and only if all are non-empty known members; then each member holds the role of the user's last entry and every identifier not listed keeps its participant; the cache only grows and other workspaces are unchanged |
| Workspaces.Workspace.AddTeams | bin/configure-tower-projects.py:518-520 | every team is added if and only if all identifiers are non-zero; then each team holds the role of its last entry and every identifier not listed keeps its participant; the cache only grows and other workspaces are unchanged |
| Workspaces.Workspace.AddUser | bin/configure-tower-projects.py:516-517 | the user joins if and only if non-empty and known; then the loop's progress extends by one entry, and a failure changes nothing |
| Workspaces.Workspace.AddTeam | bin/configure-tower-projects.py:519-520 | the team joins if and only if its identifier is non-zero; then the loop's progress extends by one entry, and a failure changes nothing |
| Workspaces.Workspace.CreateCredentials | bin/configure-tower-projects.py:522-553 | existing credentials named after the stack are reused, or refused when not live AWS credentials; otherwise new ones are created; the credentials of every workspace become `WithCredentials` of the old ones; on success a scan finds them |
| Workspaces.Workspace.GenerateComputeEnvironment | bin/configure-tower-projects.py:577-632 | the request carries the name, pricing model and the stack's credentials; it fails exactly when existing credentials are not live AWS credentials; the credentials become `WithCredentials` of the old ones |
| Workspaces.Workspace.Cleanup | bin/configure-tower-projects.py:555-575 | the environments left are the listed ones that are kept or running jobs; other workspaces are untouched |
| Workspaces.Workspace.SetPrimaryComputeEnvironment | bin/configure-tower-projects.py:668-676 | the environment becomes the workspace's primary one |
| Workspaces.Workspace.FindComputeEnvs | bin/configure-tower-projects.py:640-655 | the scan reports the last usable spot and on-demand environments of the current version |
| Workspaces.Workspace.PostComputeEnvironment | bin/configure-tower-projects.py:658-665 | one creation appends a new environment with the name, or fails on bad credentials and leaves the environments unchanged; the credentials become `WithCredentials` of the old ones either way |
| Workspaces.Workspace.ProvideComputeEnvironment | bin/configure-tower-projects.py:657-665 | a found environment is kept and nothing changes; a missing one is created, and made primary when asked, after the credentials become `WithCredentials` of the old ones |
| Workspaces.Workspace.Provision | bin/configure-tower-projects.py:657-666 | given the environments found, keeps found identifiers, appends exactly the missing spot then on-demand environments, makes a new spot environment the primary, fails only with a credential error, and leaves the credentials untouched when both were found and `WithCredentials` of the old ones otherwise |
| Workspaces.Workspace.CreateComputeEnvironment | bin/configure-tower-projects.py:634-666 | found environments keep their identifiers; only missing ones are created; the primary changes if and only if the spot environment was missing; failures are credential errors; the credentials are untouched when both environments exist and otherwise become `WithCredentials` of the old ones |
| Workspaces.Workspace.Setup | bin/configure-tower-projects.py:381-402 | the workspace with the Tower name is the first one of the organization's listing and has this identifier; other organizations' workspaces are unchanged; other workspaces keep their participants, compute environments and credentials, and this one's credentials are only appended to; on success the outcome is `SetUp`: the participants are `Populated` and the environments and primaries are the `Rotation` of the ones before |
| Workspaces.Workspace.Reconcile | bin/configure-tower-projects.py:399-402 | on success the participants are `Populated` and the environments and primaries are the `Rotation` of the ones before; other workspaces keep their participants, compute environments and credentials, and this one's credentials are only appended to |
| Workspaces.Workspace.Rotate | bin/configure-tower-projects.py:400-402 | on success the environments are the survivors of the cleanup plus exactly the missing environments, both usable when someone can launch; a new spot one becomes the primary; every environment left is current or running jobs; failures are credential errors; other workspaces keep their environments; the credentials are unchanged, or, when someone can launch, they are those `create_credentials` leaves |
| Organizations.FindOrg | bin/configure-tower-projects.py:719-721 | the organization found is the first one with the full name; none found means none has it |
| Organizations.FindOrgAppend | bin/configure-tower-projects.py:719-735 | after creating a missing organization, a new scan finds it |
| Organizations.FindTeam | bin/configure-tower-projects.py:820-822 | the team found is the first one with the name; none found means none has it |
| Organizations.LastNamed | bin/configure-tower-projects.py:763-765 | the member found has the user name and no later member does; none found means none has it |
| Organizations.LastNamedStep | bin/configure-tower-projects.py:763-765 | scanning one more member updates the last match exactly as the loop does |
| Organizations.FindEmailIs | bin/configure-tower-projects.py:763-770 | with distinct emails, the member holding an email is the one found for it |
| Organizations.AlreadyMemberQuotes | bin/configure-tower-projects.py:760 | `split("'")[1]` of the "already a member" reply is the user name |
| Organizations.AlreadyMemberSays | bin/configure-tower-projects.py:758 | that reply contains "already a member" |
| Organizations.TeamMessages | bin/configure-tower-projects.py:790 | of the team replies, only the one for a present member contains "already" |
| Organizations.Prefix | bin/configure-tower-projects.py:853 | `project_name[:-8]` drops the last eight characters, or is empty for shorter names |
| Organizations.PrefixOfProject | bin/configure-tower-projects.py:853 | the cut removes the `-project` suffix |
| Organizations.TeamNamesDiffer | bin/configure-tower-projects.py:854 | different groups of one project get differently named teams |
| Organizations.NamedPut | bin/configure-tower-projects.py:856 | recording a group's team with the group's role keeps every entry of a project's table naming a team of that project with its group's role |
| Organizations.NamedGrows | bin/configure-tower-projects.py:855-856 | a named table stays named while the organization's teams only grow |
| Organizations.TeamsCover | bin/configure-tower-projects.py:851-860 | every user of a project is in one of the teams `list_teams` yields, so `populate` visits it |
| Organizations.VerifiedStep | bin/configure-tower-projects.py:858-862 | adding the next user's member identifier keeps `verified_ids` equal to the identifiers of the users seen |
| Organizations.Organization.constructor | bin/configure-tower-projects.py:696-705 | the Tower name follows the name rule; the caches start empty |
| Organizations.Organization.Create | bin/configure-tower-projects.py:710-735 | returns the first organization with the full name without change, or creates one; afterwards a scan finds it |
| Organizations.Organization.AddMember | bin/configure-tower-projects.py:737-771 | an email already held by a member gives that member without change; otherwise a new member is created; either way the member is cached under the email, earlier cache entries are kept, and a scan by email finds it |
| Organizations.Organization.RequestMember | bin/configure-tower-projects.py:747-769 | the "already a member" path recovers the existing member through the user name quoted in the reply; otherwise a new member is appended |
| Organizations.Organization.FindMemberNamed | bin/configure-tower-projects.py:762-765 | the search returns the last listed member with the user name |
| Organizations.Organization.AddMemberToTeam | bin/configure-tower-projects.py:773-795 | the organization member with the email joins the team, which then holds its old members and this one; the member identifier is returned on both reply paths; a non-member gives `KeyError` and changes nothing |
| Organizations.Organization.RemoveMemberFromTeam | bin/configure-tower-projects.py:797-806 | the member leaves the team |
| Organizations.Organization.CreateTeam | bin/configure-tower-projects.py:808-826 | returns the first team with the name without change, or creates an empty one; the team is then listed and no team is lost |
| Organizations.Organization.ListTeamMembers | bin/configure-tower-projects.py:828-840 | returns the team's member identifiers |
| Organizations.Organization.AddMembers | bin/configure-tower-projects.py:858-864 | every user becomes a cached member; the verified set is exactly their identifiers; with a team, the team holds every verified identifier and nothing new besides them |
| Organizations.Organization.AddGroupMember | bin/configure-tower-projects.py:859-864 | the user becomes a cached member whose identifier is returned; with a team, the team gains exactly that identifier; other teams are unchanged |
| Organizations.Organization.PruneTeam | bin/configure-tower-projects.py:866-869 | the team keeps exactly its members that are verified; other teams are unchanged |
| Organizations.Organization.RecordTeam | bin/configure-tower-projects.py:852-856 | with teams, the team named `prefix-group` is obtained by get-or-create and recorded in the project's table with the group's role, and no other team's members change; without teams nothing changes |
| Organizations.Organization.PopulateTeam | bin/configure-tower-projects.py:851-869 | every user of the group becomes a member; with teams, the group's team ends up holding exactly the member identifiers of the group's users, no other team's members change, and the project's table records it with the group's role |
| Organizations.Organization.PopulateProject | bin/configure-tower-projects.py:848-869 | the project's users all become members; other projects' tables are unchanged; with teams, the project's table names teams of the project with their groups' roles; without teams it is empty |
| Organizations.Organization.PopulateGroup | bin/configure-tower-projects.py:851-869 | one round of the group loop: if the groups before `j` are done (the member cache only grew and holds their users, only this project's table changed and names its teams, known teams stay listed), then so are the groups up to `j` |
| Organizations.Organization.Populate | bin/configure-tower-projects.py:842-869 | every project has a team table and every user of every project is a cached member; with teams, every table names the project's teams with their groups' roles; without teams every table is empty |
| Organizations.Organization.CreateWorkspace | bin/configure-tower-projects.py:888-894 | the new workspace belongs to this organization and gets the project's team table when teams are used, its users otherwise; a scan of the organization's workspaces finds it under the project's Tower name; its outcome is `SetUp`: its participants are `Populated`, its environments are the `Rotation` of the ones before, and other workspaces keep their participants, compute environments and credentials; workspaces are only appended |
| Organizations.Organization.CreateWorkspaces | bin/configure-tower-projects.py:881-899 | on success every project has a recorded workspace serving it, and a scan of the organization's workspaces finds one under each project's Tower name |
| Organizations.Organization.HostWorkspace | bin/configure-tower-projects.py:888-894 | the project's workspace is recorded under the project, serves it, and a scan finds it under its Tower name; its outcome is `SetUp` (participants `Populated`, environments the `Rotation` of the ones before, other workspaces' participants, environments and credentials unchanged); workspaces are only appended |
| Organizations.Organization.Record | bin/configure-tower-projects.py:894 | the project's entry of the workspace table is the given workspace, and every other entry is unchanged |
| Organizations.Organization.HostNext | bin/configure-tower-projects.py:888-894 | one round of the loop: if the projects before `i` are hosted and listed, then on success so are the projects up to `i` |
| Organizations.Organization.HostedKept | bin/configure-tower-projects.py:888-894 | with distinct project names, hosting project `i` keeps every earlier project's recorded workspace and its listing on the server |
| Organizations.Organization.Setup | bin/configure-tower-projects.py:696-708 | the organization exists with this identifier; every user of every project is a cached member; with teams, every project's table names its teams; on success every project has its workspace, which a scan finds under the project's Tower name |

## Left out

- I/O is not modelled: reading the configuration directory, YAML loading, HTTP requests, JSON decoding, tokens and debug printing. `TowerClient.__init__` and `TowerClient.request` are not part of this model. Each endpoint reply is what `Remote.Tower` computes from its state.
- `AwsClient` and its CloudFormation and Secrets Manager lookups are not modelled. Neither are the stack outputs, the VPC outputs and the secret values that only fill request payloads.
- Workspaces.Workspace.GenerateComputeEnvironment: only the name, pricing model and credentials of the payload are modelled. The remaining fields are constants and AWS lookups. The `model in {"SPOT","EC2"}` assertion holds by the `PricingModel` type.
- `time.sleep(30)` in `create_workspaces` and the `print` on skipped deletions are not modelled. They do not change state.
- `bin/relaunch.py`, `main` and `parse_args` are not part of this model.
- Remote.Tower: the server is honest and one counter numbers all new records. Its invariant `Valid` keeps every workspace's participants numbered (`Numbered`): participant identifiers are distinct and below the counter, and each participant has exactly one of a member and a team identifier. Member identifiers and team identifiers are not kept apart, as in the source: `add_participant` looks a participant up by `memberId == identifier or teamId == identifier`, so a member whose identifier equals a listed team's is ambiguous. The model keeps that lookup. `Workspaces.Workspace.Populated` therefore states the users' roles only for members whose identifier is not also a listed team. Reply messages are reduced to the fields the reconciler reads.
- Remote.Tower.AddWorkspaceParticipant: requires exactly one of a member and a team identifier. Its only caller, `add_participant`, checks this before the request (lines 461-479).
- Remote.UserNaming: the user-name function of the server is assumed injective on e-mails, and user names contain no `'`. This is what makes `split("'")[1]` of the "already a member" reply (line 760) recover the user name, and the search by user name find the member holding the e-mail. A server breaking either assumption makes `add_member` fail its assertion or return another member; that path is not modelled.
- Client.PagedRequest: the loop ends only if the endpoint makes progress. This is a ghost bound the caller supplies. Callers in the reconciler read the fully drained listing of an honest endpoint (`PagedList`). So `create_team` and `add_member` search the whole listing. The source stops `create_team` at the first match, with the same result. The source also passes `search=<username>` to `add_member`'s listing, which an honest server answers with a sub-listing holding the same last match.
- Organizations.Organization.constructor and Workspaces.Workspace.constructor: they only initialise fields. The rest of each Python constructor is the separate `Setup` method.
- Workspaces.Workspace: a workspace receives a snapshot of the organization's member cache. Nothing changes that cache after `populate`.
- Organizations.Organization.CreateWorkspaces: a failure is stated only as an error result. The contract does not say which project failed or what the earlier projects left behind.
- Organizations.Organization.Populate: team convergence (a team holds exactly its group's members) is stated per group by `PopulateTeam`, with the frame that no other team's members change. It is not stated for the final state: projects whose names share the same prefix share their teams, so a later project can change an earlier project's team.
- Organizations.Organization.Setup: for the same reason, final team membership is not stated.
- Organizations.Organization.Setup: requires distinct project names, as the keys of a Python `dict` always are.
- Organizations.Organization.CreateWorkspaces: each round's outcome is stated by `HostWorkspace`: `SetUp` for that project's workspace, with the frame that other workspaces keep their participants, compute environments and credentials. The final state is not stated per project. Two things stand in the way. Projects whose names give the same Tower name share one workspace, so a later project can set up again what an earlier one set up. And `Rotation` compares the whole primary-environment map with the one before the round, while later rounds set their own workspaces' primaries. Lifting it would also need the server to keep workspace identifiers distinct, which `Remote.Tower.Valid` does not state.
- Organizations.Organization.Setup: for the same reasons, each workspace's participants and compute environments are stated per round, by `HostWorkspace`. Setup itself states only that each project's workspace is recorded and listed on the server.
- Projects.ProjectUsers: configurations are assumed to be YAML mappings whose `parameters` is a mapping with list-valued ARN entries. The source raises `TypeError` for an empty file (line 164), for `parameters: null` (line 171), and for ARN lists or ARNs that are null, which is also what a Sceptre `!` tag loads as (line 190; the failure is at lines 212-213). These inputs are not modelled.
