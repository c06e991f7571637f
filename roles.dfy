/**
 * The role provider: a two-way index between roles and users kept in Redis
 * sets, plus the set of all role names.
 *
 *   application:{app}:roles              the role names
 *   application:{app}:role:{role}:users  the users in a role
 *   application:{app}:user:{user}:roles  the roles of a user
 *
 * For one application name the three key families are disjoint and each
 * is injective in its role or user name (`KeyFamiliesDisjoint`,
 * `RoleUsersKeyInjective`, `UserRolesKeyInjective`), so the sets the
 * provider reaches are modelled per family: a `RoleIndex`.
 */
module Roles {
  import opened Common
  import opened Text
  import opened Config
  import opened Store
  import opened Connection

  const Prefix: string := "application:"

  /** `application:{app}:roles`: the set of role names. */
  function RolesKey(app: string): (k: string)
    ensures k == "application:" + app + ":roles"
  {
    Prefix + app + ":roles"
  }

  /** `application:{app}:role:{role}:users`: the users in a role, the role name as given. */
  function RoleUsersKey(app: string, role: string): (k: string)
    ensures k == "application:" + app + ":role:" + role + ":users"
  {
    Prefix + app + ":role:" + role + ":users"
  }

  /** `application:{app}:user:{user}:roles`: the roles of a user, the user name as given. */
  function UserRolesKey(app: string, user: string): (k: string)
    ensures k == "application:" + app + ":user:" + user + ":roles"
  {
    Prefix + app + ":user:" + user + ":roles"
  }

  /** No two of the three kinds of key coincide under one application name. */
  lemma KeyFamiliesDisjoint(app: string, role: string, user: string)
    ensures RolesKey(app) != RoleUsersKey(app, role)
    ensures RolesKey(app) != UserRolesKey(app, user)
    ensures RoleUsersKey(app, role) != UserRolesKey(app, user)
  {
    var n := |Prefix + app + ":"|;
    assert RolesKey(app) == Prefix + app + ":" + "roles";
    assert RoleUsersKey(app, role) == Prefix + app + ":" + "role:" + role + ":users";
    assert UserRolesKey(app, user) == Prefix + app + ":" + "user:" + user + ":roles";
    assert RolesKey(app)[n] == 'r' && RolesKey(app)[n + 4] == 's';
    assert RoleUsersKey(app, role)[n] == 'r' && RoleUsersKey(app, role)[n + 4] == ':';
    assert UserRolesKey(app, user)[n] == 'u';
  }

  lemma RoleUsersKeyInjective(app: string, r1: string, r2: string)
    requires RoleUsersKey(app, r1) == RoleUsersKey(app, r2)
    ensures r1 == r2
  {
    var n := |Prefix + app + ":role:"|;
    assert RoleUsersKey(app, r1) == (Prefix + app + ":role:") + r1 + ":users";
    assert RoleUsersKey(app, r2) == (Prefix + app + ":role:") + r2 + ":users";
    assert r1 == RoleUsersKey(app, r1)[n..|RoleUsersKey(app, r1)| - 6];
    assert r2 == RoleUsersKey(app, r2)[n..|RoleUsersKey(app, r2)| - 6];
  }

  lemma UserRolesKeyInjective(app: string, u1: string, u2: string)
    requires UserRolesKey(app, u1) == UserRolesKey(app, u2)
    ensures u1 == u2
  {
    var n := |Prefix + app + ":user:"|;
    assert UserRolesKey(app, u1) == (Prefix + app + ":user:") + u1 + ":roles";
    assert UserRolesKey(app, u2) == (Prefix + app + ":user:") + u2 + ":roles";
    assert u1 == UserRolesKey(app, u1)[n..|UserRolesKey(app, u1)| - 6];
    assert u2 == UserRolesKey(app, u2)[n..|UserRolesKey(app, u2)| - 6];
  }

  /** The role sets of one application: role names, users per role, roles per user. */
  datatype RoleIndex = RoleIndex(roles: set<string>, roleUsers: map<string, set<string>>, userRoles: map<string, set<string>>)

  /** SMEMBERS application:{app}:role:{role}:users: empty exactly when the role has no set. */
  function UsersInRole(idx: RoleIndex, role: string): (s: set<string>)
    ensures NoEmptySets(idx) ==> (s == {} <==> role !in idx.roleUsers)
    ensures role in idx.roleUsers ==> s == idx.roleUsers[role]
  {
    Members(idx.roleUsers, role)
  }

  /** SMEMBERS application:{app}:user:{user}:roles: empty exactly when the user has no set. */
  function RolesForUser(idx: RoleIndex, user: string): (s: set<string>)
    ensures NoEmptySets(idx) ==> (s == {} <==> user !in idx.userRoles)
    ensures user in idx.userRoles ==> s == idx.userRoles[user]
  {
    Members(idx.userRoles, user)
  }

  /** Redis keeps no empty set. */
  ghost predicate NoEmptySets(idx: RoleIndex) {
    NonEmptyValues(idx.roleUsers) && NonEmptyValues(idx.userRoles)
  }

  /** The two directions of the index agree. */
  ghost predicate Consistent(idx: RoleIndex) {
    forall r, u :: u in UsersInRole(idx, r) <==> r in RolesForUser(idx, u)
  }

  /** Two maps of non-empty sets with the same members under every key are equal. */
  lemma {:induction false} SetMapsEqual(a: map<string, set<string>>, b: map<string, set<string>>)
    requires NonEmptyValues(a) && NonEmptyValues(b)
    requires forall k, x :: x in Members(a, k) <==> x in Members(b, k)
    ensures a == b
  {
    forall k | k in a ensures k in b && a[k] == b[k] {
      var x :| x in a[k];
      assert x in Members(a, k);
      assert forall y :: y in a[k] <==> y in Members(b, k) by {
        forall y ensures y in a[k] <==> y in Members(b, k) {
          assert y in Members(a, k) <==> y in Members(b, k);
        }
      }
    }
    forall k | k in b ensures k in a {
      var x :| x in b[k];
      assert x in Members(b, k);
    }
  }

  /** The index is determined by the role names and the two membership views. */
  lemma ViewsDetermine(a: RoleIndex, b: RoleIndex)
    requires NoEmptySets(a) && NoEmptySets(b)
    requires a.roles == b.roles
    requires forall r, u :: u in UsersInRole(a, r) <==> u in UsersInRole(b, r)
    requires forall u, r :: r in RolesForUser(a, u) <==> r in RolesForUser(b, u)
    ensures a == b
  {
    forall k, x ensures x in Members(a.roleUsers, k) <==> x in Members(b.roleUsers, k) {
      assert x in UsersInRole(a, k) <==> x in UsersInRole(b, k);
    }
    forall k, x ensures x in Members(a.userRoles, k) <==> x in Members(b.userRoles, k) {
      assert x in RolesForUser(a, k) <==> x in RolesForUser(b, k);
    }
    SetMapsEqual(a.roleUsers, b.roleUsers);
    SetMapsEqual(a.userRoles, b.userRoles);
  }

  function Elements(s: seq<string>): (e: set<string>)
    ensures forall x :: x in e <==> x in s
  {
    set x | x in s
  }

  /** What IsUserInRole answers: membership in the role's user set; the set of role names is not consulted. */
  function UserHasRole(idx: RoleIndex, user: string, role: string): (b: bool)
    ensures b <==> user in UsersInRole(idx, role)
    ensures Consistent(idx) ==> (b <==> role in RolesForUser(idx, user))
  {
    user in UsersInRole(idx, role)
  }

  /** What RoleExists answers: membership in the set of role names. */
  function RoleNamed(idx: RoleIndex, role: string): (b: bool)
    ensures b <==> role in idx.roles
  {
    role in idx.roles
  }

  /** CreateRole: SADD to the set of role names; nothing else changes. */
  function RoleCreated(idx: RoleIndex, role: string): (r: RoleIndex)
    ensures r.roles == idx.roles + {role} && r.roleUsers == idx.roleUsers && r.userRoles == idx.userRoles
    ensures RoleNamed(r, role)
  {
    idx.(roles := idx.roles + {role})
  }

  lemma CreateRoleIdempotent(idx: RoleIndex, role: string)
    ensures RoleCreated(RoleCreated(idx, role), role) == RoleCreated(idx, role)
  {
  }

  /**
   * What FindUsersInRole returns: the users of the role whose name contains the match
   * string. A null match string fails, but only once there is a user to test
   * it against.
   */
  function MatchingUsers(idx: RoleIndex, role: string, usernameToMatch: Option<string>): (r: Result<set<string>>)
    ensures r.Err? <==> usernameToMatch.None? && UsersInRole(idx, role) != {}
    ensures r.Ok? ==> r.value <= UsersInRole(idx, role)
    ensures r.Ok? && usernameToMatch.Some? ==>
      forall u :: u in UsersInRole(idx, role) ==> (u in r.value <==> IsSubstring(usernameToMatch.value, u))
    ensures usernameToMatch == Some("") ==> r == Ok(UsersInRole(idx, role))
  {
    var users := UsersInRole(idx, role);
    if usernameToMatch.None? then
      if users == {} then Ok({}) else Err(ArgumentNull("value"))
    else
      var m := set u | u in users && IsSubstring(usernameToMatch.value, u);
      assert usernameToMatch == Some("") ==> m == users by {
        forall u | u in users ensures IsSubstring("", u) { SubstringBasics(u); }
      }
      Ok(m)
  }

  /** Every set is non-empty: Redis deletes a set with its last member. */
  ghost predicate NonEmptyValues(m: map<string, set<string>>) {
    forall k :: k in m ==> m[k] != {}
  }

  /** One step of AddUsersToRoles: SADD user to the role's set, then SADD role to the user's set. */
  function AddPair(idx: RoleIndex, role: string, user: string): (r: RoleIndex)
    ensures r.roles == idx.roles
    ensures forall x, u :: u in UsersInRole(r, x) <==> u in UsersInRole(idx, x) || (x == role && u == user)
    ensures forall u, x :: x in RolesForUser(r, u) <==> x in RolesForUser(idx, u) || (x == role && u == user)
    ensures NoEmptySets(idx) ==> NoEmptySets(r)
  {
    idx.(roleUsers := SetAdd(idx.roleUsers, role, user), userRoles := SetAdd(idx.userRoles, user, role))
  }

  /** One step of RemoveUsersFromRoles: SREM from both sets; a set left empty is deleted. */
  function RemovePair(idx: RoleIndex, role: string, user: string): (r: RoleIndex)
    ensures r.roles == idx.roles
    ensures forall x, u :: u in UsersInRole(r, x) <==> u in UsersInRole(idx, x) && !(x == role && u == user)
    ensures forall u, x :: x in RolesForUser(r, u) <==> x in RolesForUser(idx, u) && !(x == role && u == user)
    ensures NoEmptySets(idx) ==> NoEmptySets(r)
  {
    idx.(roleUsers := SetRemove(idx.roleUsers, role, user), userRoles := SetRemove(idx.userRoles, user, role))
  }

  /** The inner loop of AddUsersToRoles: one role, the users in order. */
  function AddUsers(idx: RoleIndex, role: string, users: seq<string>): (r: RoleIndex)
    ensures r.roles == idx.roles
    ensures NoEmptySets(idx) ==> NoEmptySets(r)
  {
    if users == [] then idx
    else AddPair(AddUsers(idx, role, users[..|users| - 1]), role, users[|users| - 1])
  }

  /** The index after AddUsersToRoles(users, roles): the roles in order, each with every user. */
  function AddPairs(idx: RoleIndex, roles: seq<string>, users: seq<string>): (r: RoleIndex)
    ensures r.roles == idx.roles
    ensures NoEmptySets(idx) ==> NoEmptySets(r)
  {
    if roles == [] then idx
    else AddUsers(AddPairs(idx, roles[..|roles| - 1], users), roles[|roles| - 1], users)
  }

  /** The inner loop of RemoveUsersFromRoles. */
  function RemoveUsers(idx: RoleIndex, role: string, users: seq<string>): (r: RoleIndex)
    ensures r.roles == idx.roles
    ensures NoEmptySets(idx) ==> NoEmptySets(r)
  {
    if users == [] then idx
    else RemovePair(RemoveUsers(idx, role, users[..|users| - 1]), role, users[|users| - 1])
  }

  /** The index after RemoveUsersFromRoles(users, roles). */
  function RemovePairs(idx: RoleIndex, roles: seq<string>, users: seq<string>): (r: RoleIndex)
    ensures r.roles == idx.roles
    ensures NoEmptySets(idx) ==> NoEmptySets(r)
  {
    if roles == [] then idx
    else RemoveUsers(RemovePairs(idx, roles[..|roles| - 1], users), roles[|roles| - 1], users)
  }

  lemma {:induction false} AddUsersMembers(idx: RoleIndex, role: string, users: seq<string>, x: string, u: string)
    ensures u in UsersInRole(AddUsers(idx, role, users), x) <==> u in UsersInRole(idx, x) || (x == role && u in users)
    ensures x in RolesForUser(AddUsers(idx, role, users), u) <==> x in RolesForUser(idx, u) || (x == role && u in users)
    decreases |users|
  {
    if users != [] {
      var init := users[..|users| - 1];
      AddUsersMembers(idx, role, init, x, u);
      assert users == init + [users[|users| - 1]];
    }
  }

  /** AddUsersToRoles adds exactly the pairs of the cross product, in both directions. */
  lemma {:induction false} AddPairsMembers(idx: RoleIndex, roles: seq<string>, users: seq<string>, x: string, u: string)
    ensures u in UsersInRole(AddPairs(idx, roles, users), x) <==> u in UsersInRole(idx, x) || (x in roles && u in users)
    ensures x in RolesForUser(AddPairs(idx, roles, users), u) <==> x in RolesForUser(idx, u) || (x in roles && u in users)
    decreases |roles|
  {
    if roles != [] {
      var init := roles[..|roles| - 1];
      AddPairsMembers(idx, init, users, x, u);
      AddUsersMembers(AddPairs(idx, init, users), roles[|roles| - 1], users, x, u);
      assert roles == init + [roles[|roles| - 1]];
    }
  }

  lemma {:induction false} RemoveUsersMembers(idx: RoleIndex, role: string, users: seq<string>, x: string, u: string)
    ensures u in UsersInRole(RemoveUsers(idx, role, users), x) <==> u in UsersInRole(idx, x) && !(x == role && u in users)
    ensures x in RolesForUser(RemoveUsers(idx, role, users), u) <==> x in RolesForUser(idx, u) && !(x == role && u in users)
    decreases |users|
  {
    if users != [] {
      var init := users[..|users| - 1];
      RemoveUsersMembers(idx, role, init, x, u);
      assert users == init + [users[|users| - 1]];
    }
  }

  /** RemoveUsersFromRoles removes exactly the pairs of the cross product, in both directions. */
  lemma {:induction false} RemovePairsMembers(idx: RoleIndex, roles: seq<string>, users: seq<string>, x: string, u: string)
    ensures u in UsersInRole(RemovePairs(idx, roles, users), x) <==> u in UsersInRole(idx, x) && !(x in roles && u in users)
    ensures x in RolesForUser(RemovePairs(idx, roles, users), u) <==> x in RolesForUser(idx, u) && !(x in roles && u in users)
    decreases |roles|
  {
    if roles != [] {
      var init := roles[..|roles| - 1];
      RemovePairsMembers(idx, init, users, x, u);
      RemoveUsersMembers(RemovePairs(idx, init, users), roles[|roles| - 1], users, x, u);
      assert roles == init + [roles[|roles| - 1]];
    }
  }

  /** The loop of DeleteRole: SREM of the role from each listed user's roles. */
  function StripRole(idx: RoleIndex, role: string, users: seq<string>): (r: RoleIndex)
    ensures r.roles == idx.roles && r.roleUsers == idx.roleUsers
    ensures NoEmptySets(idx) ==> NoEmptySets(r)
  {
    if users == [] then idx
    else
      var s := StripRole(idx, role, users[..|users| - 1]);
      s.(userRoles := SetRemove(s.userRoles, users[|users| - 1], role))
  }

  lemma {:induction false} StripRoleMembers(idx: RoleIndex, role: string, users: seq<string>, u: string, x: string)
    ensures x in RolesForUser(StripRole(idx, role, users), u) <==> x in RolesForUser(idx, u) && !(x == role && u in users)
    decreases |users|
  {
    if users != [] {
      var init := users[..|users| - 1];
      StripRoleMembers(idx, role, init, u, x);
      assert users == init + [users[|users| - 1]];
    }
  }

  /**
   * The effect of DeleteRole once it goes ahead: the role leaves the roles of
   * each of its users and the set of role names, and its user set is deleted.
   */
  function RemoveRole(idx: RoleIndex, role: string): (r: RoleIndex)
    ensures r.roles == idx.roles - {role}
    ensures UsersInRole(r, role) == {}
    ensures forall x :: x != role ==> UsersInRole(r, x) == UsersInRole(idx, x)
    ensures forall u, x :: x in RolesForUser(r, u) <==> x in RolesForUser(idx, u) && !(x == role && u in UsersInRole(idx, role))
    ensures NoEmptySets(idx) ==> NoEmptySets(r)
  {
    var users := UsersInRole(idx, role);
    var kept := map u | u in idx.userRoles && Members(idx.userRoles, u) - (if u in users then {role} else {}) != {} ::
      Members(idx.userRoles, u) - (if u in users then {role} else {});
    RoleIndex(idx.roles - {role}, idx.roleUsers - {role}, kept)
  }

  /** Whatever order SMEMBERS lists the role's users in, the loop of DeleteRole reaches RemoveRole. */
  lemma StripRoleReachesRemoveRole(idx: RoleIndex, role: string, listed: seq<string>)
    requires NoEmptySets(idx)
    requires Elements(listed) == UsersInRole(idx, role)
    ensures var s := StripRole(idx, role, listed);
      s.(roles := s.roles - {role}, roleUsers := s.roleUsers - {role}) == RemoveRole(idx, role)
  {
    var s := StripRole(idx, role, listed);
    var a := s.(roles := s.roles - {role}, roleUsers := s.roleUsers - {role});
    var b := RemoveRole(idx, role);
    forall u, x ensures x in RolesForUser(a, u) <==> x in RolesForUser(b, u) {
      StripRoleMembers(idx, role, listed, u, x);
    }
    ViewsDetermine(a, b);
  }

  const PopulatedRoleMessage: string := "Cannot delete a populated role."

  /**
   * DeleteRole before the catch block: with `throwOnPopulatedRole` a role that
   * has users is refused and nothing changes; otherwise the role is removed
   * and the answer is true.
   */
  function RoleDeleted(idx: RoleIndex, role: string, throwOnPopulatedRole: bool): (o: Outcome<bool, RoleIndex>)
    ensures o.result.Err? <==> throwOnPopulatedRole && UsersInRole(idx, role) != {}
    ensures o.result.Err? ==> o == Outcome(Err(ProviderFailure(PopulatedRoleMessage)), idx)
    ensures o.result.Ok? ==> o.result.value && o.state == RemoveRole(idx, role) && !RoleNamed(o.state, role)
  {
    if throwOnPopulatedRole && |UsersInRole(idx, role)| > 0 then Outcome(Err(ProviderFailure(PopulatedRoleMessage)), idx)
    else Outcome(Ok(true), RemoveRole(idx, role))
  }

  lemma AddPairsConsistent(idx: RoleIndex, roles: seq<string>, users: seq<string>)
    requires Consistent(idx)
    ensures Consistent(AddPairs(idx, roles, users))
  {
    var r := AddPairs(idx, roles, users);
    forall x, u ensures u in UsersInRole(r, x) <==> x in RolesForUser(r, u) {
      AddPairsMembers(idx, roles, users, x, u);
      assert u in UsersInRole(idx, x) <==> x in RolesForUser(idx, u);
    }
  }

  lemma RemovePairsConsistent(idx: RoleIndex, roles: seq<string>, users: seq<string>)
    requires Consistent(idx)
    ensures Consistent(RemovePairs(idx, roles, users))
  {
    var r := RemovePairs(idx, roles, users);
    forall x, u ensures u in UsersInRole(r, x) <==> x in RolesForUser(r, u) {
      RemovePairsMembers(idx, roles, users, x, u);
      assert u in UsersInRole(idx, x) <==> x in RolesForUser(idx, u);
    }
  }

  lemma RemoveRoleConsistent(idx: RoleIndex, role: string)
    requires Consistent(idx)
    ensures Consistent(RemoveRole(idx, role))
  {
    var r := RemoveRole(idx, role);
    forall x, u ensures u in UsersInRole(r, x) <==> x in RolesForUser(r, u) {
      assert u in UsersInRole(idx, x) <==> x in RolesForUser(idx, u);
      assert u in UsersInRole(idx, role) <==> role in RolesForUser(idx, u);
      if x == role {
        assert u !in UsersInRole(r, x);
      } else {
        assert UsersInRole(r, x) == UsersInRole(idx, x);
      }
    }
  }

  /** Creating a role touches neither direction of the index. */
  lemma CreateRoleConsistent(idx: RoleIndex, role: string)
    requires Consistent(idx)
    ensures Consistent(RoleCreated(idx, role))
  {
    var r := RoleCreated(idx, role);
    forall x, u ensures u in UsersInRole(r, x) <==> x in RolesForUser(r, u) {
      assert u in UsersInRole(idx, x) <==> x in RolesForUser(idx, u);
    }
  }

  /** Adding the same users to the same roles twice is the same as once. */
  lemma AddPairsIdempotent(idx: RoleIndex, roles: seq<string>, users: seq<string>)
    requires NoEmptySets(idx)
    ensures AddPairs(AddPairs(idx, roles, users), roles, users) == AddPairs(idx, roles, users)
  {
    var once := AddPairs(idx, roles, users);
    var twice := AddPairs(once, roles, users);
    forall x, u ensures u in UsersInRole(twice, x) <==> u in UsersInRole(once, x) {
      AddPairsMembers(once, roles, users, x, u);
      AddPairsMembers(idx, roles, users, x, u);
    }
    forall u, x ensures x in RolesForUser(twice, u) <==> x in RolesForUser(once, u) {
      AddPairsMembers(once, roles, users, x, u);
      AddPairsMembers(idx, roles, users, x, u);
    }
    ViewsDetermine(twice, once);
  }

  /** Removing pairs after adding them restores an index that held none of them. */
  lemma RemoveUndoesAdd(idx: RoleIndex, roles: seq<string>, users: seq<string>)
    requires NoEmptySets(idx)
    requires forall x, u :: x in roles && u in users ==> u !in UsersInRole(idx, x) && x !in RolesForUser(idx, u)
    ensures RemovePairs(AddPairs(idx, roles, users), roles, users) == idx
  {
    var added := AddPairs(idx, roles, users);
    var back := RemovePairs(added, roles, users);
    forall x, u ensures u in UsersInRole(back, x) <==> u in UsersInRole(idx, x) {
      AddPairsMembers(idx, roles, users, x, u);
      RemovePairsMembers(added, roles, users, x, u);
    }
    forall u, x ensures x in RolesForUser(back, u) <==> x in RolesForUser(idx, u) {
      AddPairsMembers(idx, roles, users, x, u);
      RemovePairsMembers(added, roles, users, x, u);
    }
    ViewsDetermine(back, idx);
  }

  /**
   * Initialize as written: the password is kept only when the configured
   * value is null or empty, so a configured password is dropped.
   */
  function PasswordAsWritten(configured: Option<string>): (p: Option<string>)
    ensures configured.Some? && configured.value != "" ==> p == None
  {
    if !(configured == None || configured == Some("")) then None else configured
  }

  /** A configured password never reaches the connection. */
  lemma PasswordAsWrittenDropsPassword()
    ensures PasswordAsWritten(Some("secret")) == None
    ensures PasswordAsWritten(Some("")) == Some("")
  {
  }

  /** The evident intent, as the other providers read it: null when missing or empty, else the configured value. */
  function Password(configured: Option<string>): (p: Option<string>)
    ensures p == None <==> configured == None || configured == Some("")
    ensures p.Some? ==> p == configured
  {
    if configured == None || configured == Some("") then None else configured
  }

  datatype RoleConfig = RoleConfig(app: string, port: int, db: int, password: Option<string>, writeExceptionsToEventLog: bool)

  /** A numeric setting with the provider's own default when it is missing or empty. */
  function OrDefault(v: Option<int>, default: int): (n: int)
    ensures v.None? ==> n == default
    ensures v.Some? ==> n == v.value
  {
    match v
    case None => default
    case Some(n) => n
  }

  /**
   * Initialize: port (default 6379) and db (default 0) through `int.Parse`,
   * whose failure is thrown before anything else is read; then the password
   * (corrected), the application name and the upper-case "TRUE" flag, none
   * of which can fail.
   */
  function Initialize(config: Settings, virtualPath: string): (c: Result<RoleConfig>)
    ensures c.Ok? <==> ConfiguredInt(config, "port").Ok? && ConfiguredInt(config, "db").Ok?
    ensures ConfiguredInt(config, "port").Err? ==> c == Err(ConfiguredInt(config, "port").failure)
    ensures ConfiguredInt(config, "port").Ok? && ConfiguredInt(config, "db").Err? ==> c == Err(ConfiguredInt(config, "db").failure)
    ensures c.Ok? ==>
      c.value.port == OrDefault(ConfiguredInt(config, "port").value, 6379) &&
      c.value.db == OrDefault(ConfiguredInt(config, "db").value, 0)
    ensures c.Ok? ==>
      (c.value.writeExceptionsToEventLog <==> "writeExceptionsToEventLog" in config && EqualsIgnoreCase(config["writeExceptionsToEventLog"], "TRUE"))
    ensures c.Ok? && "password" in config && config["password"] != "" ==> c.value.password == Some(config["password"])
    ensures c.Ok? ==> (c.value.app == virtualPath <==> Lookup(config, "applicationName") in {None, Some(""), Some(virtualPath)})
    ensures c.Ok? ==> c.value.app == ApplicationName(config, virtualPath)
    ensures c.Ok? ==> c.value.password == Password(Lookup(config, "password"))
    ensures c.Ok? ==> (c.value.password == None <==> Lookup(config, "password") in {None, Some("")})
  {
    match ConfiguredInt(config, "port")
    case Err(f) => Err(f)
    case Ok(port) =>
      match ConfiguredInt(config, "db")
      case Err(f) => Err(f)
      case Ok(db) =>
        Ok(RoleConfig(ApplicationName(config, virtualPath), OrDefault(port, 6379), OrDefault(db, 0),
                      Password(Lookup(config, "password")), UpperIsTrue(Lookup(config, "writeExceptionsToEventLog"))))
  }

  /** With neither port nor db configured, Initialize succeeds with 6379 and 0. */
  lemma InitializeDefaultPort(config: Settings, virtualPath: string)
    requires "port" !in config && "db" !in config
    ensures Initialize(config, virtualPath).Ok?
    ensures Initialize(config, virtualPath).value.port == 6379 && Initialize(config, virtualPath).value.db == 0
  {
  }

  /** A port that is not a number fails Initialize with a format error, as `int.Parse` throws. */
  lemma InitializeBadPort(config: Settings, virtualPath: string)
    requires "port" in config && config["port"] == "abc"
    ensures Initialize(config, virtualPath) == Err(InvalidFormat)
  {
    assert ParseInt("abc") == Err(InvalidFormat) by {
      var t := "abc";
      assert Trim(t) == t by { assert !IsWhiteSpace(t[0]) && !IsWhiteSpace(t[|t| - 1]); }
      assert SignLength(t) == 0;
      assert t[0..] == t;
      assert !IsDigit(t[0]);
    }
  }

  /** SMEMBERS as an array: the members of a set, each once, in an order Redis chooses. */
  method Listing(members: set<string>) returns (listed: seq<string>)
    ensures Elements(listed) == members
    ensures |listed| == |members|
  {
    listed := [];
    var rest := members;
    while rest != {}
      invariant Elements(listed) + rest == members
      invariant Elements(listed) !! rest
      invariant |listed| + |rest| == |members|
      decreases rest
    {
      var m :| m in rest;
      listed := listed + [m];
      rest := rest - {m};
    }
  }

  class RoleStore {
    var index: RoleIndex
    const config: RoleConfig
    const conn: Manager

    ghost predicate Valid()
      reads this, conn
    {
      NoEmptySets(index) && conn.Valid()
    }

    constructor (config: RoleConfig, conn: Manager)
      requires conn.Valid()
      ensures Valid() && this.config == config && this.conn == conn && index == RoleIndex({}, map[], map[])
    {
      this.config := config;
      this.conn := conn;
      index := RoleIndex({}, map[], map[]);
    }

    method AddUsersToRoles(usernames: seq<string>, roleNames: seq<string>, outcome: OpenOutcome) returns (r: Result<()>)
      requires Valid()
      modifies this, conn
      ensures Valid()
      ensures var a := Acquire(old(conn.handle), old(conn.created), outcome);
        conn.handle == Some(a.handle) && conn.created == a.created &&
        Outcome(r, index) == Guarded(config.writeExceptionsToEventLog, a.result, old(index),
                                     Outcome(Ok(()), AddPairs(old(index), roleNames, usernames)))
    {
      var connected := conn.GetConnection(outcome);
      if connected.Err? {
        return Err(Surface(config.writeExceptionsToEventLog, connected.failure));
      }
      ghost var start := index;
      var i := 0;
      while i < |roleNames|
        invariant 0 <= i <= |roleNames|
        invariant index == AddPairs(start, roleNames[..i], usernames)
        modifies this
      {
        AddToRole(roleNames[i], usernames);
        assert roleNames[..i + 1][..i] == roleNames[..i];
        i := i + 1;
      }
      assert roleNames[..i] == roleNames;
      r := Ok(());
    }

    /** The inner loop of AddUsersToRoles: every user into one role, in order. */
    method AddToRole(role: string, usernames: seq<string>)
      modifies this
      ensures index == AddUsers(old(index), role, usernames)
    {
      ghost var before := index;
      var j := 0;
      while j < |usernames|
        invariant 0 <= j <= |usernames|
        invariant index == AddUsers(before, role, usernames[..j])
      {
        assert usernames[..j + 1][..j] == usernames[..j];
        index := AddPair(index, role, usernames[j]);
        j := j + 1;
      }
      assert usernames[..j] == usernames;
    }

    /** The inner loop of RemoveUsersFromRoles: every user out of one role, in order. */
    method RemoveFromRole(role: string, usernames: seq<string>)
      modifies this
      ensures index == RemoveUsers(old(index), role, usernames)
    {
      ghost var before := index;
      var j := 0;
      while j < |usernames|
        invariant 0 <= j <= |usernames|
        invariant index == RemoveUsers(before, role, usernames[..j])
      {
        assert usernames[..j + 1][..j] == usernames[..j];
        index := RemovePair(index, role, usernames[j]);
        j := j + 1;
      }
      assert usernames[..j] == usernames;
    }

    method RemoveUsersFromRoles(usernames: seq<string>, roleNames: seq<string>, outcome: OpenOutcome) returns (r: Result<()>)
      requires Valid()
      modifies this, conn
      ensures Valid()
      ensures var a := Acquire(old(conn.handle), old(conn.created), outcome);
        conn.handle == Some(a.handle) && conn.created == a.created &&
        Outcome(r, index) == Guarded(config.writeExceptionsToEventLog, a.result, old(index),
                                     Outcome(Ok(()), RemovePairs(old(index), roleNames, usernames)))
    {
      var connected := conn.GetConnection(outcome);
      if connected.Err? {
        return Err(Surface(config.writeExceptionsToEventLog, connected.failure));
      }
      ghost var start := index;
      var i := 0;
      while i < |roleNames|
        invariant 0 <= i <= |roleNames|
        invariant index == RemovePairs(start, roleNames[..i], usernames)
        modifies this
      {
        RemoveFromRole(roleNames[i], usernames);
        assert roleNames[..i + 1][..i] == roleNames[..i];
        i := i + 1;
      }
      assert roleNames[..i] == roleNames;
      r := Ok(());
    }

    method DeleteRole(roleName: string, throwOnPopulatedRole: bool, outcome: OpenOutcome) returns (r: Result<bool>)
      requires Valid()
      modifies this, conn
      ensures Valid()
      ensures var a := Acquire(old(conn.handle), old(conn.created), outcome);
        conn.handle == Some(a.handle) && conn.created == a.created &&
        Outcome(r, index) == Guarded(config.writeExceptionsToEventLog, a.result, old(index),
                                     RoleDeleted(old(index), roleName, throwOnPopulatedRole))
    {
      var connected := conn.GetConnection(outcome);
      if connected.Err? {
        return Err(Surface(config.writeExceptionsToEventLog, connected.failure));
      }
      if throwOnPopulatedRole {
        var count := |UsersInRole(index, roleName)|;
        if count > 0 {
          return Err(Surface(config.writeExceptionsToEventLog, ProviderFailure(PopulatedRoleMessage)));
        }
      }
      ghost var start := index;
      var usersInRole := Listing(UsersInRole(index, roleName));
      var k := 0;
      while k < |usersInRole|
        invariant 0 <= k <= |usersInRole|
        invariant index == StripRole(start, roleName, usersInRole[..k])
        modifies this
      {
        assert usersInRole[..k + 1][..k] == usersInRole[..k];
        index := index.(userRoles := SetRemove(index.userRoles, usersInRole[k], roleName));
        k := k + 1;
      }
      assert usersInRole[..k] == usersInRole;
      StripRoleReachesRemoveRole(start, roleName, usersInRole);
      index := index.(roles := index.roles - {roleName});
      index := index.(roleUsers := index.roleUsers - {roleName});
      r := Ok(true);
    }

    /** GetAllRoles: SMEMBERS of the role names, each once, in the order Redis lists them. */
    method GetAllRoles(outcome: OpenOutcome) returns (r: Result<seq<string>>)
      requires Valid()
      modifies conn
      ensures Valid() && index == old(index)
      ensures var a := Acquire(old(conn.handle), old(conn.created), outcome);
        conn.handle == Some(a.handle) && conn.created == a.created &&
        (a.result.Err? ==> r == Err(Surface(config.writeExceptionsToEventLog, a.result.failure))) &&
        (a.result.Ok? ==> r.Ok? && Elements(r.value) == index.roles && |r.value| == |index.roles|)
    {
      var connected := conn.GetConnection(outcome);
      if connected.Err? {
        return Err(Surface(config.writeExceptionsToEventLog, connected.failure));
      }
      var listed := Listing(index.roles);
      r := Ok(listed);
    }

    /** GetUsersInRole: SMEMBERS of the role's users, each once; a role without users lists none. */
    method GetUsersInRole(roleName: string, outcome: OpenOutcome) returns (r: Result<seq<string>>)
      requires Valid()
      modifies conn
      ensures Valid() && index == old(index)
      ensures var a := Acquire(old(conn.handle), old(conn.created), outcome);
        conn.handle == Some(a.handle) && conn.created == a.created &&
        (a.result.Err? ==> r == Err(Surface(config.writeExceptionsToEventLog, a.result.failure))) &&
        (a.result.Ok? ==> r.Ok? && Elements(r.value) == UsersInRole(index, roleName) &&
                          |r.value| == |UsersInRole(index, roleName)|)
    {
      var connected := conn.GetConnection(outcome);
      if connected.Err? {
        return Err(Surface(config.writeExceptionsToEventLog, connected.failure));
      }
      var listed := Listing(UsersInRole(index, roleName));
      r := Ok(listed);
    }

    /** IsUserInRole: SISMEMBER on the role's users, inside the provider's catch. */
    method IsUserInRole(username: string, roleName: string, outcome: OpenOutcome) returns (r: Result<bool>)
      requires Valid()
      modifies conn
      ensures Valid() && index == old(index)
      ensures var a := Acquire(old(conn.handle), old(conn.created), outcome);
        conn.handle == Some(a.handle) && conn.created == a.created &&
        Outcome(r, index) == Guarded(config.writeExceptionsToEventLog, a.result, old(index),
                                     Outcome(Ok(UserHasRole(old(index), username, roleName)), old(index)))
    {
      var connected := conn.GetConnection(outcome);
      if connected.Err? {
        return Err(Surface(config.writeExceptionsToEventLog, connected.failure));
      }
      r := Ok(username in UsersInRole(index, roleName));
    }

    /** RoleExists: SISMEMBER on the set of role names, inside the provider's catch. */
    method RoleExists(roleName: string, outcome: OpenOutcome) returns (r: Result<bool>)
      requires Valid()
      modifies conn
      ensures Valid() && index == old(index)
      ensures var a := Acquire(old(conn.handle), old(conn.created), outcome);
        conn.handle == Some(a.handle) && conn.created == a.created &&
        Outcome(r, index) == Guarded(config.writeExceptionsToEventLog, a.result, old(index),
                                     Outcome(Ok(RoleNamed(old(index), roleName)), old(index)))
    {
      var connected := conn.GetConnection(outcome);
      if connected.Err? {
        return Err(Surface(config.writeExceptionsToEventLog, connected.failure));
      }
      r := Ok(roleName in index.roles);
    }

    /**
     * FindUsersInRole: SMEMBERS of the role's users filtered by `Contains`,
     * as an array holding each match once; a null match string throws inside
     * the catch, so with the event-log flag it becomes the generic exception.
     */
    method FindUsersInRole(roleName: string, usernameToMatch: Option<string>, outcome: OpenOutcome) returns (r: Result<seq<string>>)
      requires Valid()
      modifies conn
      ensures Valid() && index == old(index)
      ensures var a := Acquire(old(conn.handle), old(conn.created), outcome);
        var m := MatchingUsers(old(index), roleName, usernameToMatch);
        conn.handle == Some(a.handle) && conn.created == a.created &&
        (a.result.Err? ==> r == Err(Surface(config.writeExceptionsToEventLog, a.result.failure))) &&
        (a.result.Ok? && m.Err? ==> r == Err(Surface(config.writeExceptionsToEventLog, m.failure))) &&
        (a.result.Ok? && m.Ok? ==> r.Ok? && Elements(r.value) == m.value && |r.value| == |m.value|)
    {
      var connected := conn.GetConnection(outcome);
      if connected.Err? {
        return Err(Surface(config.writeExceptionsToEventLog, connected.failure));
      }
      var users := UsersInRole(index, roleName);
      if usernameToMatch.None? {
        if users != {} {
          return Err(Surface(config.writeExceptionsToEventLog, ArgumentNull("value")));
        }
        r := Ok([]);
        return;
      }
      var matches := set u | u in users && IsSubstring(usernameToMatch.value, u);
      var listed := Listing(matches);
      r := Ok(listed);
    }

    /** GetRolesForUser: SMEMBERS of the user's roles, each once; a user without roles lists none. */
    method GetRolesForUser(username: string, outcome: OpenOutcome) returns (r: Result<seq<string>>)
      requires Valid()
      modifies conn
      ensures Valid() && index == old(index)
      ensures var a := Acquire(old(conn.handle), old(conn.created), outcome);
        conn.handle == Some(a.handle) && conn.created == a.created &&
        (a.result.Err? ==> r == Err(Surface(config.writeExceptionsToEventLog, a.result.failure))) &&
        (a.result.Ok? ==> r.Ok? && Elements(r.value) == RolesForUser(index, username) &&
                          |r.value| == |RolesForUser(index, username)|)
    {
      var connected := conn.GetConnection(outcome);
      if connected.Err? {
        return Err(Surface(config.writeExceptionsToEventLog, connected.failure));
      }
      var listed := Listing(RolesForUser(index, username));
      r := Ok(listed);
    }

    method CreateRole(roleName: string, outcome: OpenOutcome) returns (r: Result<()>)
      requires Valid()
      modifies this, conn
      ensures Valid()
      ensures var a := Acquire(old(conn.handle), old(conn.created), outcome);
        conn.handle == Some(a.handle) && conn.created == a.created &&
        Outcome(r, index) == Guarded(config.writeExceptionsToEventLog, a.result, old(index),
                                     Outcome(Ok(()), RoleCreated(old(index), roleName)))
    {
      var connected := conn.GetConnection(outcome);
      if connected.Err? {
        return Err(Surface(config.writeExceptionsToEventLog, connected.failure));
      }
      index := index.(roles := index.roles + {roleName});
      r := Ok(());
    }
  }
}
