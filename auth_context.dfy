/** The signed-in user's role and permissions in the dashboard
    (src/context/AuthContext.tsx): the role chosen from the user's Microsoft
    Entra ID security groups, the role hierarchy `hasRole` checks, and the two
    flags the pages consult. Token acquisition, the Graph requests and the
    page loop that collects the groups are inputs here. */
module AuthContext {
  import opened Types

  datatype UserRole = Viewer | Manager | Executive

  /** `roleHierarchy`, lowest role first. */
  const ROLE_HIERARCHY: seq<UserRole> := [Viewer, Manager, Executive]

  /** `Array.prototype.indexOf`: the first position of `x` in `s`, or -1. */
  function IndexOf<T(==)>(s: seq<T>, x: T): (i: int)
    ensures -1 <= i < |s|
    ensures i == -1 <==> x !in s
    ensures 0 <= i ==> s[i] == x && x !in s[..i]
  {
    if s == [] then -1
    else if s[0] == x then 0
    else
      var j := IndexOf(s[1..], x);
      assert s[1..][..j + 1] == s[1..j + 2] by { assert j + 1 <= |s[1..]|; }
      if j == -1 then -1 else j + 1
  }

  /** A role's position in the hierarchy. */
  function Rank(r: UserRole): int {
    IndexOf(ROLE_HIERARCHY, r)
  }

  /** Viewer below manager below executive. */
  lemma RankOrder()
    ensures Rank(Viewer) == 0 && Rank(Manager) == 1 && Rank(Executive) == 2
    ensures forall r :: Rank(r) == if r.Viewer? then 0 else if r.Manager? then 1 else 2
  {
    assert ROLE_HIERARCHY[0] == Viewer && ROLE_HIERARCHY[1] == Manager && ROLE_HIERARCHY[2] == Executive;
    assert Viewer !in ROLE_HIERARCHY[1..];
    assert Manager !in ROLE_HIERARCHY[2..];
    forall r: UserRole ensures Rank(r) == if r.Viewer? then 0 else if r.Manager? then 1 else 2 {
      match r
      case Viewer =>
      case Manager =>
      case Executive =>
    }
  }

  /** One entry of the user's `memberOf` list, as Microsoft Graph returns it. */
  datatype GraphGroup = GraphGroup(id: string, displayName: string, odataType: string)

  const SECURITY_GROUP_TYPE: string := "#microsoft.graph.group"

  predicate IsSecurityGroup(g: GraphGroup) {
    g.odataType == SECURITY_GROUP_TYPE
  }

  /** The `filter` both lists share: the groups of security-group type, in order. */
  function SecurityGroups(groups: seq<GraphGroup>): (r: seq<GraphGroup>)
    ensures |r| <= |groups|
    ensures forall g :: g in r <==> g in groups && IsSecurityGroup(g)
  {
    if groups == [] then []
    else
      var rest := SecurityGroups(groups[1..]);
      assert forall g :: g in groups <==> g == groups[0] || g in groups[1..];
      (if IsSecurityGroup(groups[0]) then [groups[0]] else []) + rest
  }

  /** `.map((g) => g.id)`. */
  function Ids(gs: seq<GraphGroup>): (r: seq<string>)
    ensures |r| == |gs| && forall i :: 0 <= i < |gs| ==> r[i] == gs[i].id
  {
    if gs == [] then [] else [gs[0].id] + Ids(gs[1..])
  }

  /** `.map((g) => g.displayName)`. */
  function Names(gs: seq<GraphGroup>): (r: seq<string>)
    ensures |r| == |gs| && forall i :: 0 <= i < |gs| ==> r[i] == gs[i].displayName
  {
    if gs == [] then [] else [gs[0].displayName] + Names(gs[1..])
  }

  /** `securityGroupIds`. */
  function SecurityGroupIds(groups: seq<GraphGroup>): seq<string> {
    Ids(SecurityGroups(groups))
  }

  /** `securityGroups`: the display names of the same groups, position by position. */
  function SecurityGroupNames(groups: seq<GraphGroup>): seq<string> {
    Names(SecurityGroups(groups))
  }

  /** The filter of a concatenation of pages is the concatenation of the filters. */
  lemma {:induction false} SecurityGroupsOfConcat(a: seq<GraphGroup>, b: seq<GraphGroup>)
    ensures SecurityGroups(a + b) == SecurityGroups(a) + SecurityGroups(b)
  {
    if a != [] {
      assert (a + b)[1..] == a[1..] + b;
      SecurityGroupsOfConcat(a[1..], b);
    } else {
      assert a + b == b;
    }
  }

  /** The filter drops a group of another type wherever it sits. */
  lemma FilterDropsOtherType(before: seq<GraphGroup>, g: GraphGroup, after: seq<GraphGroup>)
    requires !IsSecurityGroup(g)
    ensures SecurityGroups(before + [g] + after) == SecurityGroups(before + after)
  {
    assert SecurityGroups([g]) == [] by {
      assert [g][1..] == [];
    }
    calc {
      SecurityGroups(before + [g] + after);
      { SecurityGroupsOfConcat(before + [g], after); }
      SecurityGroups(before + [g]) + SecurityGroups(after);
      { SecurityGroupsOfConcat(before, [g]); }
      SecurityGroups(before) + SecurityGroups([g]) + SecurityGroups(after);
      { assert SecurityGroups(before) + [] == SecurityGroups(before); }
      SecurityGroups(before) + SecurityGroups(after);
      { SecurityGroupsOfConcat(before, after); }
      SecurityGroups(before + after);
    }
  }

  /** A group of another type (a distribution list, a directory role), wherever
      it sits in the list, changes neither list and so grants no role. */
  lemma OtherGroupTypesIgnored(before: seq<GraphGroup>, g: GraphGroup, after: seq<GraphGroup>, config: GroupIds)
    requires !IsSecurityGroup(g)
    ensures SecurityGroupIds(before + [g] + after) == SecurityGroupIds(before + after)
    ensures SecurityGroupNames(before + [g] + after) == SecurityGroupNames(before + after)
    ensures RoleFor(SecurityGroupIds(before + [g] + after), config) == RoleFor(SecurityGroupIds(before + after), config)
  {
    FilterDropsOtherType(before, g, after);
  }

  /** `groupIds` (src/config/msal.ts): the ids of the three dashboard groups. */
  datatype GroupIds = GroupIds(executives: string, managers: string, viewers: string)

  /** The roles the user's security groups grant; the viewer role is the
      default, with or without the viewers group. */
  function GrantedRoles(ids: seq<string>, config: GroupIds): set<UserRole> {
    {Viewer} + (if config.managers in ids then {Manager} else {}) + (if config.executives in ids then {Executive} else {})
  }

  /** The role a signed-in user gets: the highest role granted. */
  function RoleFor(ids: seq<string>, config: GroupIds): (r: UserRole)
    ensures r in GrantedRoles(ids, config)
    ensures forall q :: q in GrantedRoles(ids, config) ==> Rank(q) <= Rank(r)
  {
    RankOrder();
    if config.executives in ids then Executive else if config.managers in ids then Manager else Viewer
  }

  /** The `let role` chain: executive first, then manager, then viewer, the
      last also the default when no group matches. */
  method SelectRole(securityGroupIds: seq<string>, config: GroupIds) returns (role: UserRole)
    ensures role == RoleFor(securityGroupIds, config)
  {
    role := Viewer;
    if config.executives in securityGroupIds {
      role := Executive;
    } else if config.managers in securityGroupIds {
      role := Manager;
    } else if config.viewers in securityGroupIds {
      role := Viewer;
    }
  }

  /** `AuthenticatedUser`; `photoUrl` is always left undefined, so it is not a field. */
  datatype AuthenticatedUser = AuthenticatedUser(
    id: string, email: string, displayName: string, department: Option<string>, jobTitle: Option<string>,
    role: UserRole, securityGroups: seq<string>)

  /** The `/me` profile fields the dashboard reads. */
  datatype Profile = Profile(
    id: string, mail: Option<string>, userPrincipalName: string, displayName: string,
    department: Option<string>, jobTitle: Option<string>)

  const DEMO_USER: AuthenticatedUser := AuthenticatedUser(
    "demo-user", "demo@company.com", "Demo Executive", Some("Executive"), Some("CEO"),
    Executive, ["Office-Dashboard-Executives"])

  /** The user `fetchUserProfile` stores: the demo user in demo mode; nobody
      when MSAL reports no signed-in account; otherwise the profile with the
      role of its security groups, or nobody when any of the Graph calls
      throws (`fetched` is then `Err`). */
  function FetchedUser(isDemoMode: bool, isAuthenticated: bool, accountCount: nat,
                       fetched: Result<(Profile, seq<GraphGroup>)>, config: GroupIds)
    : (r: Option<AuthenticatedUser>)
    ensures isDemoMode ==> r == Some(DEMO_USER)
    ensures !isDemoMode && (!isAuthenticated || accountCount == 0) ==> r == None
    ensures !isDemoMode && isAuthenticated && accountCount > 0 ==> (r.Some? <==> fetched.Ok?)
    ensures !isDemoMode && r.Some? ==>
              var (profile, groups) := fetched.value;
              && r.value.id == profile.id
              && (Truthy(profile.mail) ==> r.value.email == profile.mail.value)
              && (!Truthy(profile.mail) ==> r.value.email == profile.userPrincipalName)
              && r.value.role == RoleFor(SecurityGroupIds(groups), config)
              && r.value.securityGroups == SecurityGroupNames(groups)
  {
    if isDemoMode then Some(DEMO_USER)
    else if !isAuthenticated || accountCount == 0 then None
    else match fetched
      case Err(_) => None
      case Ok((profile, groups)) =>
        Some(AuthenticatedUser(profile.id, OrElse(profile.mail, profile.userPrincipalName), profile.displayName,
                               profile.department, profile.jobTitle,
                               RoleFor(SecurityGroupIds(groups), config), SecurityGroupNames(groups)))
  }

  /** `hasRole`: nobody signed in has no role; otherwise the user's place in
      the hierarchy is at least the required role's. */
  function HasRole(user: Option<AuthenticatedUser>, role: UserRole): (b: bool)
    ensures user.None? ==> !b
    ensures user.Some? ==> (b <==> role == Viewer || user.value.role == role || user.value.role == Executive)
  {
    RankOrder();
    if user.None? then false else Rank(user.value.role) >= Rank(role)
  }

  /** Holding a role means holding every role below it. */
  lemma HasRoleDownward(user: Option<AuthenticatedUser>, lower: UserRole, higher: UserRole)
    requires HasRole(user, higher) && Rank(lower) <= Rank(higher)
    ensures HasRole(user, lower)
  {
    RankOrder();
  }

  /** A signed-in user holds exactly the roles granted by their groups and
      those below them. */
  lemma {:induction false} RoleCoversGrants(user: AuthenticatedUser, groups: seq<GraphGroup>, config: GroupIds,
                                            role: UserRole)
    requires user.role == RoleFor(SecurityGroupIds(groups), config)
    ensures role in GrantedRoles(SecurityGroupIds(groups), config) ==> HasRole(Some(user), role)
    ensures HasRole(Some(user), role) <==> Rank(role) <= Rank(user.role)
  {
    RankOrder();
  }

  function CanViewUserDetails(user: Option<AuthenticatedUser>): bool {
    user.Some? && (user.value.role == Executive || user.value.role == Manager)
  }

  function CanViewAllOffices(user: Option<AuthenticatedUser>): bool {
    user.Some? && user.value.role == Executive
  }

  /** The two flags are the hierarchy's manager and executive levels, so all
      offices implies user details. */
  lemma PermissionsFollowHierarchy(user: Option<AuthenticatedUser>)
    ensures CanViewUserDetails(user) <==> HasRole(user, Manager)
    ensures CanViewAllOffices(user) <==> HasRole(user, Executive)
    ensures CanViewAllOffices(user) ==> CanViewUserDetails(user)
  {
  }

  /** In demo mode the user is an executive and sees everything. */
  lemma DemoUserSeesEverything(isAuthenticated: bool, accountCount: nat,
                               fetched: Result<(Profile, seq<GraphGroup>)>, config: GroupIds, role: UserRole)
    ensures var user := FetchedUser(true, isAuthenticated, accountCount, fetched, config);
      HasRole(user, role) && CanViewUserDetails(user) && CanViewAllOffices(user)
  {
  }
}
