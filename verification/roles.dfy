/**
 * The five role tiers of a project (class `Users`): the flat listing of every
 * user with its group and Tower role, and the regrouping into one list per
 * non-empty group.
 */
module Roles {

  /** Users of one project, per tier; every user is an email address. */
  datatype Users = Users(
    owners: seq<string>,
    admins: seq<string>,
    maintainers: seq<string>,
    launchers: seq<string>,
    viewers: seq<string>)

  /** The attributes of `Users`, declared in the order `list_users` visits them. */
  datatype Group = Owners | Admins | Maintainers | Launchers | Viewers

  /** The Tower workspace roles. */
  datatype Role = Owner | Admin | Maintain | Launch | View

  /** Roles that may launch workflows. */
  const LauncherRoles: set<Role> := {Owner, Admin, Maintain, Launch}

  /** The position of a group in the visiting order. */
  function Rank(g: Group): nat {
    match g
    case Owners => 0
    case Admins => 1
    case Maintainers => 2
    case Launchers => 3
    case Viewers => 4
  }

  /** The `role_mapping` of `list_users`. */
  function RoleOf(g: Group): Role {
    match g
    case Owners => Owner
    case Admins => Admin
    case Maintainers => Maintain
    case Launchers => Launch
    case Viewers => View
  }

  /** The attribute name of a group, as used in team names. */
  function GroupName(g: Group): string {
    match g
    case Owners => "owners"
    case Admins => "admins"
    case Maintainers => "maintainers"
    case Launchers => "launchers"
    case Viewers => "viewers"
  }

  /** The name of a role, as sent to Tower. */
  function RoleName(r: Role): string {
    match r
    case Owner => "owner"
    case Admin => "admin"
    case Maintain => "maintain"
    case Launch => "launch"
    case View => "view"
  }

  /** `getattr(self, user_group)` */
  function Tier(u: Users, g: Group): seq<string> {
    match g
    case Owners => u.owners
    case Admins => u.admins
    case Maintainers => u.maintainers
    case Launchers => u.launchers
    case Viewers => u.viewers
  }

  /** Every user of every tier, tier after tier. */
  function AllUsers(u: Users): seq<string> {
    u.owners + u.admins + u.maintainers + u.launchers + u.viewers
  }

  /** A tier together with its group. */
  type Tiered = (seq<string>, Group)

  /** The tiers in the order `list_users` visits `role_mapping`. */
  function Tiers(u: Users): seq<Tiered> {
    [(u.owners, Owners), (u.admins, Admins), (u.maintainers, Maintainers), (u.launchers, Launchers), (u.viewers, Viewers)]
  }

  /** The groups of `ps` come in strictly increasing visiting order (so each at most once). */
  ghost predicate Increasing(ps: seq<Tiered>) {
    forall i, j :: 0 <= i < j < |ps| ==> Rank(ps[i].1) < Rank(ps[j].1)
  }

  lemma TiersShape(u: Users)
    ensures Increasing(Tiers(u))
    ensures forall p :: p in Tiers(u) <==> p.0 == Tier(u, p.1)
  {
    var ps := Tiers(u);
    assert forall i :: 0 <= i < |ps| ==> Rank(ps[i].1) == i;
    forall p ensures p in ps <==> p.0 == Tier(u, p.1) {
      if p.0 == Tier(u, p.1) {
        assert ps[Rank(p.1)] == p;
      }
    }
  }

  /** One element of `list_users`: the user, its group and its role. */
  datatype Entry = Entry(user: string, group: Group, role: Role)

  function Tagged(users: seq<string>, g: Group): (es: seq<Entry>)
    ensures |es| == |users|
  {
    if users == [] then [] else [Entry(users[0], g, RoleOf(g))] + Tagged(users[1..], g)
  }

  lemma {:induction false} TaggedAt(users: seq<string>, g: Group)
    ensures forall i :: 0 <= i < |users| ==> Tagged(users, g)[i] == Entry(users[i], g, RoleOf(g))
  {
    if users != [] {
      TaggedAt(users[1..], g);
    }
  }

  /** The entries yielded for the tiers `ps`, tier after tier. */
  function ListOf(ps: seq<Tiered>): seq<Entry> {
    if ps == [] then [] else Tagged(ps[0].0, ps[0].1) + ListOf(ps[1..])
  }

  /** `Users.list_users` */
  function ListUsers(u: Users): seq<Entry> {
    ListOf(Tiers(u))
  }

  function UsersOf(es: seq<Entry>): (us: seq<string>)
    ensures |us| == |es|
  {
    if es == [] then [] else [es[0].user] + UsersOf(es[1..])
  }

  lemma {:induction false} UsersOfAppend(a: seq<Entry>, b: seq<Entry>)
    ensures UsersOf(a + b) == UsersOf(a) + UsersOf(b)
  {
    if a == [] {
      assert a + b == b;
    } else {
      assert (a + b)[1..] == a[1..] + b;
      UsersOfAppend(a[1..], b);
    }
  }

  lemma {:induction false} UsersOfTagged(users: seq<string>, g: Group)
    ensures UsersOf(Tagged(users, g)) == users
  {
    if users != [] {
      UsersOfTagged(users[1..], g);
      assert [users[0]] + users[1..] == users;
    }
  }

  /** The users of the tiers `ps`, tier after tier. */
  function FlatUsers(ps: seq<Tiered>): seq<string> {
    if ps == [] then [] else ps[0].0 + FlatUsers(ps[1..])
  }

  lemma {:induction false} ListOfUsers(ps: seq<Tiered>)
    ensures UsersOf(ListOf(ps)) == FlatUsers(ps)
  {
    if ps != [] {
      ListOfUsers(ps[1..]);
      UsersOfAppend(Tagged(ps[0].0, ps[0].1), ListOf(ps[1..]));
      UsersOfTagged(ps[0].0, ps[0].1);
    }
  }

  lemma AllUsersFlat(u: Users)
    ensures FlatUsers(Tiers(u)) == AllUsers(u)
  {
    var ps := Tiers(u);
    assert FlatUsers(ps[4..]) == u.viewers;
    assert FlatUsers(ps[3..]) == u.launchers + u.viewers;
    assert FlatUsers(ps[2..]) == u.maintainers + u.launchers + u.viewers;
    assert FlatUsers(ps[1..]) == u.admins + u.maintainers + u.launchers + u.viewers;
  }

  lemma TaggedMember(users: seq<string>, g: Group, e: Entry)
    ensures e in Tagged(users, g) <==> e.group == g && e.role == RoleOf(g) && e.user in users
  {
    var es := Tagged(users, g);
    TaggedAt(users, g);
    if e in es {
      var i :| 0 <= i < |es| && es[i] == e;
    }
    if e.group == g && e.role == RoleOf(g) && e.user in users {
      var i :| 0 <= i < |users| && users[i] == e.user;
      assert es[i] == e;
    }
  }

  /** The tier of `ps` an entry can come from. */
  ghost predicate FromTier(ps: seq<Tiered>, e: Entry) {
    exists p :: p in ps && p.1 == e.group && e.user in p.0
  }

  lemma {:induction false} ListOfMember(ps: seq<Tiered>, e: Entry)
    ensures e in ListOf(ps) <==> e.role == RoleOf(e.group) && FromTier(ps, e)
  {
    if ps != [] {
      ListOfMember(ps[1..], e);
      TaggedMember(ps[0].0, ps[0].1, e);
      if FromTier(ps, e) && !FromTier(ps[1..], e) {
        var p :| p in ps && p.1 == e.group && e.user in p.0;
        assert p == ps[0];
      }
      if FromTier(ps[1..], e) {
        var p :| p in ps[1..] && p.1 == e.group && e.user in p.0;
        assert p in ps;
      }
    }
  }

  /**
   * `list_users` yields a user with a group and a role exactly when the user
   * belongs to that group and the role is the group's.
   */
  lemma ListUsersMember(u: Users, e: Entry)
    ensures e in ListUsers(u) <==> e.role == RoleOf(e.group) && e.user in Tier(u, e.group)
  {
    TiersShape(u);
    ListOfMember(Tiers(u), e);
    if e.user in Tier(u, e.group) {
      assert (Tier(u, e.group), e.group) in Tiers(u);
    }
  }

  /** Entries come group after group, in the visiting order. */
  predicate RankOrdered(es: seq<Entry>) {
    forall i, j :: 0 <= i <= j < |es| ==> Rank(es[i].group) <= Rank(es[j].group)
  }

  /** Every entry of the listing comes after the groups before `ps`. */
  lemma {:induction false} ListOfOrdered(ps: seq<Tiered>)
    requires Increasing(ps)
    ensures RankOrdered(ListOf(ps))
  {
    if ps != [] {
      ListOfOrdered(ps[1..]);
      var front, back := Tagged(ps[0].0, ps[0].1), ListOf(ps[1..]);
      var es := front + back;
      TaggedAt(ps[0].0, ps[0].1);
      forall j | 0 <= j < |back| ensures Rank(ps[0].1) < Rank(back[j].group) {
        ListOfMember(ps[1..], back[j]);
        var p :| p in ps[1..] && p.1 == back[j].group && back[j].user in p.0;
        var m :| 0 <= m < |ps[1..]| && ps[1..][m] == p;
        assert ps[m + 1] == p;
      }
      forall i, j | 0 <= i <= j < |es| ensures Rank(es[i].group) <= Rank(es[j].group) {
        if j < |front| {
          assert es[i] == front[i] && es[j] == front[j];
        } else {
          assert es[j] == back[j - |front|];
          if i < |front| { assert es[i] == front[i]; } else { assert es[i] == back[i - |front|]; }
        }
      }
    }
  }

  /**
   * `list_users` yields every user of every group exactly once, owners first
   * and viewers last, each with the group it came from and that group's role.
   */
  lemma ListUsersShape(u: Users)
    ensures UsersOf(ListUsers(u)) == AllUsers(u)
    ensures forall e :: e in ListUsers(u) ==> e.role == RoleOf(e.group) && e.user in Tier(u, e.group)
    ensures RankOrdered(ListUsers(u))
  {
    ListOfUsers(Tiers(u));
    AllUsersFlat(u);
    TiersShape(u);
    ListOfOrdered(Tiers(u));
    forall e | e in ListUsers(u) ensures e.role == RoleOf(e.group) && e.user in Tier(u, e.group) {
      ListUsersMember(u, e);
    }
  }

  /** Some listed role may launch workflows. */
  predicate SomeLauncher(es: seq<Entry>) {
    exists i :: 0 <= i < |es| && es[i].role in LauncherRoles
  }

  /** The listing of a project holds a launching role exactly when one of the four upper tiers is non-empty. */
  lemma LaunchersAreUpperTiers(u: Users)
    ensures SomeLauncher(ListUsers(u)) <==> u.owners + u.admins + u.maintainers + u.launchers != []
  {
    var es := ListUsers(u);
    if SomeLauncher(es) {
      var i :| 0 <= i < |es| && es[i].role in LauncherRoles;
      ListUsersMember(u, es[i]);
    } else if u.owners + u.admins + u.maintainers + u.launchers != [] {
      var g := if u.owners != [] then Owners else if u.admins != [] then Admins
               else if u.maintainers != [] then Maintainers else Launchers;
      var e := Entry(Tier(u, g)[0], g, RoleOf(g));
      ListUsersMember(u, e);
      assert false;
    }
  }

  /** One element of `list_teams`: the users of a group, the group and its role. */
  datatype Team = Team(users: seq<string>, group: Group, role: Role)

  /** The team of a group. */
  function TeamOf(u: Users, g: Group): Team {
    Team(Tier(u, g), g, RoleOf(g))
  }

  /** The team of one tier, if the tier has users. */
  function TeamIf(p: Tiered): seq<Team> {
    if p.0 == [] then [] else [Team(p.0, p.1, RoleOf(p.1))]
  }

  /** The teams of the tiers `ps`: one per non-empty tier, users in tier order. */
  function TeamsOf(ps: seq<Tiered>): seq<Team> {
    if ps == [] then [] else TeamIf(ps[0]) + TeamsOf(ps[1..])
  }

  /** What `list_teams` yields, stated tier by tier. */
  function Teams(u: Users): seq<Team> {
    TeamsOf(Tiers(u))
  }

  type Key = (Group, Role)

  /** The `defaultdict(list)` of `list_teams`: its keys in insertion order and its lists. */
  datatype Grouping = Grouping(order: seq<Key>, lists: map<Key, seq<string>>)

  /** Every key in the insertion order has a list. */
  ghost predicate Listed(g: Grouping) {
    forall key :: key in g.order ==> key in g.lists
  }

  /** `teams[(user_group, role)].append(user)` */
  function Append(g: Grouping, e: Entry): Grouping {
    var key := (e.group, e.role);
    if key in g.lists then Grouping(g.order, g.lists[key := g.lists[key] + [e.user]])
    else Grouping(g.order + [key], g.lists[key := [e.user]])
  }

  /** The grouping obtained by appending `es` one entry at a time. */
  function Fold(g: Grouping, es: seq<Entry>): Grouping
    decreases |es|
  {
    if es == [] then g else Fold(Append(g, es[0]), es[1..])
  }

  /** The items of the grouping, in key order. */
  function Items(order: seq<Key>, lists: map<Key, seq<string>>): seq<Team>
    requires forall k :: k in order ==> k in lists
  {
    if order == [] then []
    else
      var last := order[|order| - 1];
      Items(order[..|order| - 1], lists) + [Team(lists[last], last.0, last.1)]
  }

  lemma {:induction false} FoldAppend(g: Grouping, a: seq<Entry>, b: seq<Entry>)
    ensures Fold(g, a + b) == Fold(Fold(g, a), b)
    decreases |a|
  {
    if a == [] {
      assert a + b == b;
    } else {
      assert (a + b)[1..] == a[1..] + b;
      FoldAppend(Append(g, a[0]), a[1..], b);
    }
  }

  /** Appending a tier whose key is present extends that key's list by the tier. */
  lemma {:induction false} FoldKnownKey(g: Grouping, users: seq<string>, grp: Group)
    requires (grp, RoleOf(grp)) in g.lists
    ensures Fold(g, Tagged(users, grp)) ==
      Grouping(g.order, g.lists[(grp, RoleOf(grp)) := g.lists[(grp, RoleOf(grp))] + users])
    decreases |users|
  {
    var key := (grp, RoleOf(grp));
    if users == [] {
      assert g.lists[key] + users == g.lists[key];
      assert g.lists[key := g.lists[key] + users] == g.lists;
    } else {
      var g' := Append(g, Entry(users[0], grp, RoleOf(grp)));
      assert g' == Grouping(g.order, g.lists[key := g.lists[key] + [users[0]]]);
      FoldKnownKey(g', users[1..], grp);
      assert g'.lists[key] + users[1..] == g.lists[key] + users;
      assert g'.lists[key := g'.lists[key] + users[1..]] == g.lists[key := g.lists[key] + users];
    }
  }

  /** Adds the key of a non-empty tier, holding the tier. */
  function AddTier(g: Grouping, p: Tiered): Grouping {
    if p.0 == [] then g
    else Grouping(g.order + [(p.1, RoleOf(p.1))], g.lists[(p.1, RoleOf(p.1)) := p.0])
  }

  /** Appending a whole tier whose key is new adds that key, holding the tier, unless the tier is empty. */
  lemma FoldNewTier(g: Grouping, p: Tiered)
    requires (p.1, RoleOf(p.1)) !in g.lists
    ensures Fold(g, Tagged(p.0, p.1)) == AddTier(g, p)
  {
    var (users, grp) := p;
    if users != [] {
      var key := (grp, RoleOf(grp));
      var g' := Append(g, Entry(users[0], grp, RoleOf(grp)));
      assert g' == Grouping(g.order + [key], g.lists[key := [users[0]]]);
      FoldKnownKey(g', users[1..], grp);
      assert [users[0]] + users[1..] == users;
      assert g'.lists[key := g'.lists[key] + users[1..]] == g.lists[key := users];
    }
  }

  /** The grouping after adding the tiers `ps` one by one. */
  function Grouped(g: Grouping, ps: seq<Tiered>): Grouping
    decreases |ps|
  {
    if ps == [] then g else Grouped(AddTier(g, ps[0]), ps[1..])
  }

  /** None of the groups of `ps` has a key in `g` yet. */
  ghost predicate Fresh(g: Grouping, ps: seq<Tiered>) {
    forall p :: p in ps ==> (p.1, RoleOf(p.1)) !in g.lists
  }

  /** Adding the first tier leaves the keys of the remaining tiers fresh. */
  lemma FreshRest(g: Grouping, ps: seq<Tiered>)
    requires ps != [] && Increasing(ps) && Fresh(g, ps)
    ensures Increasing(ps[1..]) && Fresh(AddTier(g, ps[0]), ps[1..])
  {
    forall p | p in ps[1..] ensures (p.1, RoleOf(p.1)) !in AddTier(g, ps[0]).lists {
      var m :| 0 <= m < |ps[1..]| && ps[1..][m] == p;
      assert ps[m + 1] == p;
    }
  }

  lemma {:induction false} FoldTiers(g: Grouping, ps: seq<Tiered>)
    requires Increasing(ps) && Fresh(g, ps)
    ensures Fold(g, ListOf(ps)) == Grouped(g, ps)
    decreases |ps|
  {
    if ps != [] {
      FoldAppend(g, Tagged(ps[0].0, ps[0].1), ListOf(ps[1..]));
      FoldNewTier(g, ps[0]);
      FreshRest(g, ps);
      FoldTiers(AddTier(g, ps[0]), ps[1..]);
    }
  }

  lemma {:induction false} ItemsFresh(order: seq<Key>, lists: map<Key, seq<string>>, key: Key, users: seq<string>)
    requires forall k :: k in order ==> k in lists
    requires key !in order
    ensures Items(order, lists[key := users]) == Items(order, lists)
  {
    if order != [] {
      ItemsFresh(order[..|order| - 1], lists, key, users);
    }
  }

  lemma ItemsAddTier(g: Grouping, p: Tiered)
    requires Listed(g) && (p.1, RoleOf(p.1)) !in g.lists
    ensures Listed(AddTier(g, p))
    ensures Items(AddTier(g, p).order, AddTier(g, p).lists) == Items(g.order, g.lists) + TeamIf(p)
  {
    if p.0 != [] {
      var g' := AddTier(g, p);
      assert g'.order[..|g'.order| - 1] == g.order;
      ItemsFresh(g.order, g.lists, (p.1, RoleOf(p.1)), p.0);
    }
  }

  lemma {:induction false} ItemsGrouped(g: Grouping, ps: seq<Tiered>)
    requires Listed(g) && Increasing(ps) && Fresh(g, ps)
    ensures Listed(Grouped(g, ps))
    ensures Items(Grouped(g, ps).order, Grouped(g, ps).lists) == Items(g.order, g.lists) + TeamsOf(ps)
    decreases |ps|
  {
    if ps != [] {
      var g' := AddTier(g, ps[0]);
      ItemsAddTier(g, ps[0]);
      FreshRest(g, ps);
      ItemsGrouped(g', ps[1..]);
    }
  }

  /**
   * `Users.list_teams`: regroups the flat listing into one `(users, group, role)`
   * item per group that has users, in group order, keeping each group's user order.
   */
  method ListTeams(u: Users) returns (teams: seq<Team>)
    ensures teams == Teams(u)
  {
    var entries := ListUsers(u);
    var order: seq<Key> := [];
    var lists: map<Key, seq<string>> := map[];
    for i := 0 to |entries|
      invariant Fold(Grouping(order, lists), entries[i..]) == Fold(Grouping([], map[]), entries)
    {
      assert entries[i..][1..] == entries[i + 1..];
      var e := entries[i];
      var key := (e.group, e.role);
      if key in lists {
        lists := lists[key := lists[key] + [e.user]];
      } else {
        order := order + [key];
        lists := lists[key := [e.user]];
      }
    }
    TiersShape(u);
    FoldTiers(Grouping([], map[]), Tiers(u));
    ItemsGrouped(Grouping([], map[]), Tiers(u));
    teams := Items(order, lists);
  }

  function Flatten(ts: seq<Team>): seq<string> {
    if ts == [] then [] else ts[0].users + Flatten(ts[1..])
  }

  lemma {:induction false} TeamsOfShape(ps: seq<Tiered>)
    ensures Flatten(TeamsOf(ps)) == FlatUsers(ps)
    ensures forall t :: t in TeamsOf(ps) <==> t.users != [] && t.role == RoleOf(t.group) && (t.users, t.group) in ps
  {
    if ps != [] {
      TeamsOfShape(ps[1..]);
      var ts := TeamsOf(ps[1..]);
      if ps[0].0 != [] {
        var t0 := Team(ps[0].0, ps[0].1, RoleOf(ps[0].1));
        assert ([t0] + ts)[1..] == ts;
      } else {
        assert TeamsOf(ps) == ts;
        assert ps[0].0 + FlatUsers(ps[1..]) == FlatUsers(ps[1..]);
      }
      assert ps == [ps[0]] + ps[1..];
    }
  }

  /** Teams whose groups are in strictly increasing rank. */
  ghost predicate Ordered(ts: seq<Team>) {
    forall i, j :: 0 <= i < j < |ts| ==> Rank(ts[i].group) < Rank(ts[j].group)
  }

  /** A team ranked below every team of an ordered list may lead it. */
  lemma PrependOrdered(t: Team, ts: seq<Team>)
    requires Ordered(ts) && forall u :: u in ts ==> Rank(t.group) < Rank(u.group)
    ensures Ordered([t] + ts)
  {
    var all := [t] + ts;
    forall i, j | 0 <= i < j < |all| ensures Rank(all[i].group) < Rank(all[j].group) {
      assert all[j] == ts[j - 1];
      if i > 0 { assert all[i] == ts[i - 1]; }
    }
  }

  /** The teams of tiers all ranked above `r` are ranked above `r`. */
  lemma TeamsOfAbove(ps: seq<Tiered>, r: nat)
    requires forall k :: 0 <= k < |ps| ==> r < Rank(ps[k].1)
    ensures forall t :: t in TeamsOf(ps) ==> r < Rank(t.group)
  {
    TeamsOfShape(ps);
  }

  lemma {:induction false} TeamsOfOrdered(ps: seq<Tiered>)
    requires Increasing(ps)
    ensures Ordered(TeamsOf(ps))
  {
    if ps != [] {
      var rest := ps[1..];
      assert forall k :: 0 <= k < |rest| ==> rest[k] == ps[k + 1];
      TeamsOfOrdered(rest);
      TeamsOfAbove(rest, Rank(ps[0].1));
      if ps[0].0 != [] {
        PrependOrdered(Team(ps[0].0, ps[0].1, RoleOf(ps[0].1)), TeamsOf(rest));
      }
    }
  }

  /**
   * `list_teams` yields, in group order, exactly one team per group with users,
   * holding that group's whole tier and its role; together the teams list every user once.
   */
  lemma TeamsShape(u: Users)
    ensures forall i, j :: 0 <= i < j < |Teams(u)| ==> Rank(Teams(u)[i].group) < Rank(Teams(u)[j].group)
    ensures forall t :: t in Teams(u) <==> t.users != [] && t == TeamOf(u, t.group)
    ensures Flatten(Teams(u)) == AllUsers(u)
  {
    TiersShape(u);
    TeamsOfShape(Tiers(u));
    TeamsOfOrdered(Tiers(u));
    AllUsersFlat(u);
  }

  /** Each team of `list_teams` carries its group's role. */
  lemma TeamRole(u: Users, j: nat)
    requires j < |Teams(u)|
    ensures Teams(u)[j].role == RoleOf(Teams(u)[j].group)
  {
    TeamsShape(u);
    assert Teams(u)[j] in Teams(u);
  }
}
