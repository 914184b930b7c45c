/**
 Delegation of permissions: roles, their permissions and their members, changed by services that check
 every grant against the acting user's own effective permission codes. Each service call is one step.
 */
module Delegation {
  import opened Prelude

  type UserId = nat
  type RoleId = nat
  type PermissionId = nat
  type Code = string

  const SUPER_ADMIN := "super_admin"

  datatype Role = Role(code: string, active: bool)

  /** The catalogue of permissions only changes by migration. */
  datatype Db = Db(
    users: map<UserId, Account>,
    roles: map<RoleId, Role>,
    members: set<(UserId, RoleId)>,
    grants: set<(RoleId, PermissionId)>,
    permissions: map<PermissionId, Code>)

  /** permissions::codes_by_role_ids: active or not, everything the roles carry. */
  function CodesOf(db: Db, roles: set<RoleId>): set<Code> {
    set g | g in db.grants && g.0 in roles && g.1 in db.permissions :: db.permissions[g.1]
  }

  function ActiveRoles(db: Db, u: UserId): set<RoleId> {
    set m | m in db.members && m.0 == u && m.1 in db.roles && db.roles[m.1].active :: m.1
  }

  /** permissions::permission_codes_by_user */
  function Effective(db: Db, u: UserId): set<Code> {
    if u in db.users && !db.users[u].deleted && db.users[u].status == Active
    then CodesOf(db, ActiveRoles(db, u)) else {}
  }

  /** Granting some management permissions requires granting the reads they depend on. */
  predicate DependenciesMet(codes: set<Code>) {
    && ("role:permissions:write" in codes ==> "role:directory:read" in codes && "permission:directory:read" in codes)
    && ("organization:department:write" in codes ==> "organization:department:read" in codes)
  }

  function CodesById(db: Db, ids: seq<PermissionId>): set<Code> {
    set i | i in ids && i in db.permissions :: db.permissions[i]
  }

  /** roles::validate_permission_dependencies followed by validate_permission_grant_scope. */
  predicate PermissionsGrantable(db: Db, actor: UserId, ids: seq<PermissionId>) {
    && Distinct(ids) && (forall i :: i in ids ==> i in db.permissions)
    && DependenciesMet(CodesById(db, ids))
    && CodesById(db, ids) <= Effective(db, actor)
  }

  predicate RolesAllowed(db: Db, actor: UserId, ids: set<RoleId>) {
    && (forall r :: r in ids ==> r in db.roles && db.roles[r].active)
    && ((exists r :: r in ids && db.roles[r].code == SUPER_ADMIN) ==> "user:super_admin:grant" in Effective(db, actor))
    && CodesOf(db, ids) <= Effective(db, actor)
  }

  /** users::validate_role_grant_scope */
  predicate RolesGrantable(db: Db, actor: UserId, ids: seq<RoleId>) {
    Distinct(ids) && RolesAllowed(db, actor, SetOf(ids))
  }

  datatype Op =
    | CreateRole(actor: UserId, role: RoleId, code: string, permissionIds: Option<seq<PermissionId>>)
    | UpdateRole(actor: UserId, role: RoleId, activate: Option<bool>)
    | DeleteRole(actor: UserId, role: RoleId)
    | AssignPermissions(actor: UserId, role: RoleId, ids: seq<PermissionId>)
    | CreateUser(actor: UserId, user: UserId, initial: Status, roleIds: Option<seq<RoleId>>)
    | UpdateUser(actor: UserId, user: UserId, status: Option<Status>)
    | DeleteUser(actor: UserId, user: UserId)
    | AssignRoles(actor: UserId, users: seq<UserId>, roles: seq<RoleId>)

  function WithPermissions(db: Db, role: RoleId, ids: seq<PermissionId>): Db {
    db.(grants := (set g | g in db.grants && g.0 != role) + (set i | i in ids :: (role, i)))
  }

  function WithRoles(db: Db, user: UserId, ids: seq<RoleId>): Db {
    db.(members := (set m | m in db.members && m.0 != user) + (set r | r in ids :: (user, r)))
  }

  /** assign_roles and assign_roles_many: the same roles for every listed user. */
  function WithRolesForAll(db: Db, users: seq<UserId>, ids: seq<RoleId>): Db {
    if users == [] then db else WithRoles(WithRolesForAll(db, users[..|users| - 1], ids), users[|users| - 1], ids)
  }

  predicate Alive(db: Db, u: UserId) {
    u in db.users && !db.users[u].deleted
  }

  function RoleIdsOf(db: Db, u: UserId): set<RoleId> {
    set m | m in db.members && m.0 == u :: m.1
  }

  /**
   None when the service answers with an error and changes nothing. The visibility of the target and the last
   super admin's protection only refuse more, so every run of the services is also a run here.
   */
  function Apply(db: Db, op: Op): Option<Db> {
    match op
    case CreateRole(actor, role, code, ids) =>
      if role in db.roles || (exists r :: r in db.roles && db.roles[r].code == code) then None
      else
        var db' := db.(roles := db.roles[role := Role(code, true)]);
        if ids.None? then Some(db')
        else if ids.value != [] && "role:permissions:write" !in Effective(db, actor) then None
        else if !PermissionsGrantable(db, actor, ids.value) then None
        else Some(WithPermissions(db', role, ids.value))
    case UpdateRole(actor, role, activate) =>
      if role !in db.roles then None
      else if activate == Some(false) && db.roles[role].code == SUPER_ADMIN then None
      else if activate == Some(true) && !(CodesOf(db, {role}) <= Effective(db, actor)) then None
      else if activate.None? then Some(db)
      else Some(db.(roles := db.roles[role := db.roles[role].(active := activate.value)]))
    case DeleteRole(actor, role) =>
      if role !in db.roles || db.roles[role].code == SUPER_ADMIN
         || (exists m :: m in db.members && m.1 == role && Alive(db, m.0)) then None
      else Some(db.(roles := db.roles - {role}, members := (set m | m in db.members && m.1 != role),
                    grants := (set g | g in db.grants && g.0 != role)))
    case AssignPermissions(actor, role, ids) =>
      if role !in db.roles || db.roles[role].code == SUPER_ADMIN || !PermissionsGrantable(db, actor, ids) then None
      else Some(WithPermissions(db, role, ids))
    case CreateUser(actor, user, status, ids) =>
      if user in db.users || (ids.Some? && !RolesGrantable(db, actor, ids.value)) then None
      else
        var db' := db.(users := db.users[user := Account(status, false)]);
        Some(if ids.Some? then WithRoles(db', user, ids.value) else db')
    case UpdateUser(actor, user, status) =>
      if !Alive(db, user) then None
      else if status.Some? && status.value != Active && actor == user then None
      else if status == Some(Active) && !RolesAllowed(db, actor, RoleIdsOf(db, user)) then None
      else Some(if status.Some? then db.(users := db.users[user := Account(status.value, false)]) else db)
    case DeleteUser(actor, user) =>
      if !Alive(db, user) || actor == user then None
      else Some(db.(users := db.users[user := db.users[user].(deleted := true)],
          members := (set m | m in db.members && m.0 != user)))
    case AssignRoles(actor, users, ids) =>
      if !Distinct(users) || (exists u :: u in users && !Alive(db, u)) || !RolesGrantable(db, actor, ids) then None
      else Some(WithRolesForAll(db, users, ids))
  }

  function Run(db: Db, ops: seq<Op>): Option<Db>
    decreases |ops|
  {
    if ops == [] then Some(db)
    else
      var db' := Apply(db, ops[0]);
      if db'.None? then None else Run(db'.value, ops[1..])
  }

  /** Foreign keys. */
  ghost predicate Valid(db: Db) {
    && (forall m :: m in db.members ==> m.0 in db.users && m.1 in db.roles)
    && (forall g :: g in db.grants ==> g.0 in db.roles && g.1 in db.permissions)
  }

  // ---------------------------------------------------------------- what a call accepts and what it leaves

  /** A code is effective through an active role of a living, active user, and in no other way. */
  lemma EffectiveIff(db: Db, u: UserId, c: Code)
    ensures c in Effective(db, u)
       <==> && u in db.users && !db.users[u].deleted && db.users[u].status == Active
            && exists r, p ::
                 && (u, r) in db.members && r in db.roles && db.roles[r].active
                 && (r, p) in db.grants && p in db.permissions && db.permissions[p] == c
  {
    if r, p :| (u, r) in db.members && r in db.roles && db.roles[r].active
               && (r, p) in db.grants && p in db.permissions && db.permissions[p] == c {
      assert r in ActiveRoles(db, u);
      assert (r, p).0 == r && (r, p).1 == p;
      assert c in CodesOf(db, ActiveRoles(db, u));
    }
    if c in Effective(db, u) {
      var g := CodeHasGrant(db, ActiveRoles(db, u), c);
      assert (u, g.0) in db.members && (g.0, g.1) in db.grants;
    }
  }

  lemma CodeHasGrant(db: Db, roles: set<RoleId>, c: Code) returns (g: (RoleId, PermissionId))
    requires c in CodesOf(db, roles)
    ensures g in db.grants && g.0 in roles && g.1 in db.permissions && db.permissions[g.1] == c
  {
    g :| g in db.grants && g.0 in roles && g.1 in db.permissions && db.permissions[g.1] == c;
  }

  lemma CodesWithin(db: Db, roles: set<RoleId>, codes: set<Code>)
    ensures CodesOf(db, roles) <= codes
       <==> forall r, p :: r in roles && (r, p) in db.grants && p in db.permissions ==> db.permissions[p] in codes
  {
    if CodesOf(db, roles) <= codes {
      forall r, p | r in roles && (r, p) in db.grants && p in db.permissions ensures db.permissions[p] in codes {
        assert (r, p).0 == r && (r, p).1 == p;
        assert db.permissions[p] in CodesOf(db, roles);
      }
    } else {
      var c :| c in CodesOf(db, roles) && c !in codes;
      var g := CodeHasGrant(db, roles, c);
      assert (g.0, g.1) in db.grants;
    }
  }

  /** The roles an operation hands to users. */
  function Handed(db: Db, op: Op): set<RoleId> {
    match op
    case CreateUser(_, _, _, ids) => if ids.Some? then SetOf(ids.value) else {}
    case UpdateUser(_, user, status) => if status == Some(Active) then RoleIdsOf(db, user) else {}
    case AssignRoles(_, _, ids) => SetOf(ids)
    case _ => {}
  }

  /**
   Whoever hands out a role, by assigning it or by activating a user that has it, hands out an existing active role
   all of whose codes are its own, and super_admin only with the code for that.
   */
  lemma HandedRolesAreActive(db: Db, op: Op, r: RoleId, p: PermissionId)
    requires Apply(db, op).Some? && r in Handed(db, op)
    ensures r in db.roles && db.roles[r].active
    ensures (r, p) in db.grants && p in db.permissions ==> db.permissions[p] in Effective(db, op.actor)
    ensures db.roles[r].code == "super_admin" ==> "user:super_admin:grant" in Effective(db, op.actor)
  {
    if (r, p) in db.grants && p in db.permissions {
      assert (r, p).0 == r && (r, p).1 == p;
      assert db.permissions[p] in CodesOf(db, Handed(db, op));
    }
  }

  lemma {:induction false} RolesForAll(db: Db, users: seq<UserId>, ids: seq<RoleId>)
    ensures var db' := WithRolesForAll(db, users, ids);
            && db'.users == db.users && db'.roles == db.roles && db'.grants == db.grants
            && db'.permissions == db.permissions
            && forall m :: m in db'.members <==> if m.0 in users then m.1 in ids else m in db.members
  {
    if users != [] {
      var n := |users| - 1;
      RolesForAll(db, users[..n], ids);
      assert forall u :: u in users <==> u in users[..n] || u == users[n];
    }
  }

  /** What each accepted call on users leaves: accounts and memberships; it touches neither roles nor permissions. */
  lemma UserCallOutcome(db: Db, op: Op)
    requires op.CreateUser? || op.UpdateUser? || op.DeleteUser? || op.AssignRoles?
    requires Apply(db, op).Some?
    ensures var db' := Apply(db, op).value;
            && db'.roles == db.roles && db'.grants == db.grants && db'.permissions == db.permissions
            && match op
               case CreateUser(_, user, status, ids) =>
                 && user !in db.users && db'.users == db.users[user := Account(status, false)]
                 && forall m :: m in db'.members <==>
                      if m.0 == user && ids.Some? then m.1 in ids.value else m in db.members
               case UpdateUser(actor, user, status) =>
                 && user in db.users && !db.users[user].deleted && db'.members == db.members
                 && (status.Some? && status.value != Active ==> actor != user)
                 && db'.users == if status.Some? then db.users[user := Account(status.value, false)] else db.users
               case DeleteUser(actor, user) =>
                 && user in db.users && !db.users[user].deleted && actor != user
                 && db'.users == db.users[user := Account(db.users[user].status, true)]
                 && forall m :: m in db'.members <==> m in db.members && m.0 != user
               case AssignRoles(_, users, ids) =>
                 && (forall u :: u in users ==> u in db.users && !db.users[u].deleted) && db'.users == db.users
                 && forall m :: m in db'.members <==> if m.0 in users then m.1 in ids else m in db.members
               case _ => true
  {
    if op.AssignRoles? { RolesForAll(db, op.users, op.roles); }
  }

  /** What each accepted call on roles leaves; it touches no account, and memberships only with a deleted role. */
  lemma RoleCallOutcome(db: Db, op: Op)
    requires op.CreateRole? || op.UpdateRole? || op.DeleteRole? || op.AssignPermissions?
    requires Apply(db, op).Some?
    ensures var db' := Apply(db, op).value;
            && db'.users == db.users && db'.permissions == db.permissions
            && match op
               case CreateRole(_, role, code, ids) =>
                 && role !in db.roles && (forall r :: r in db.roles ==> db.roles[r].code != code)
                 && db'.roles == db.roles[role := Role(code, true)] && db'.members == db.members
                 && forall g :: g in db'.grants <==>
                      if g.0 == role && ids.Some? then g.1 in ids.value else g in db.grants
               case UpdateRole(_, role, activate) =>
                 && role in db.roles && db'.members == db.members && db'.grants == db.grants
                 && db'.roles == if activate.Some? then db.roles[role := Role(db.roles[role].code, activate.value)]
                                 else db.roles
               case DeleteRole(_, role) =>
                 && role in db.roles && db'.roles == db.roles - {role}
                 && (forall m :: m in db.members && m.1 == role && m.0 in db.users ==> db.users[m.0].deleted)
                 && (forall m :: m in db'.members <==> m in db.members && m.1 != role)
                 && forall g :: g in db'.grants <==> g in db.grants && g.0 != role
               case AssignPermissions(_, role, ids) =>
                 && role in db.roles && db.roles[role].code != "super_admin"
                 && (forall i :: i in ids ==> i in db.permissions)
                 && db'.roles == db.roles && db'.members == db.members
                 && forall g :: g in db'.grants <==> if g.0 == role then g.1 in ids else g in db.grants
               case _ => true
  {}

  // ---------------------------------------------------------------- one step adds only the actor's codes

  /** Every code a user has in `b` it had in `a`, or it lies in P. */
  ghost predicate Within(a: Db, b: Db, P: set<Code>) {
    forall u :: Effective(b, u) <= Effective(a, u) + P
  }

  /** Changing one role's permissions to a granted list. */
  lemma PermissionsStayWithin(db: Db, role: RoleId, ids: seq<PermissionId>)
    ensures Within(db, WithPermissions(db, role, ids), CodesById(db, ids))
  {}

  lemma RoleUpdateStaysWithin(db: Db, role: RoleId, active: bool)
    requires role in db.roles
    ensures var db' := db.(roles := db.roles[role := db.roles[role].(active := active)]);
            Within(db, db', if active then CodesOf(db, {role}) else {})
  {}

  lemma RolesStayWithin(db: Db, user: UserId, ids: seq<RoleId>)
    ensures Within(db, WithRoles(db, user, ids), CodesOf(db, SetOf(ids)))
  {}

  lemma WithinTransitive(a: Db, b: Db, c: Db, P: set<Code>)
    requires Within(a, b, P) && Within(b, c, P)
    ensures Within(a, c, P)
  {}

  lemma {:induction false} RolesForAllStayWithin(db: Db, users: seq<UserId>, ids: seq<RoleId>)
    ensures var db' := WithRolesForAll(db, users, ids);
            && Within(db, db', CodesOf(db, SetOf(ids)))
            && db'.grants == db.grants && db'.permissions == db.permissions && db'.roles == db.roles
                && db'.users == db.users
    ensures forall m :: m in WithRolesForAll(db, users, ids).members ==> m in db.members || (m.0 in users && m.1 in ids)
  {
    if users != [] {
      var n := |users| - 1;
      RolesForAllStayWithin(db, users[..n], ids);
      var mid := WithRolesForAll(db, users[..n], ids);
      RolesStayWithin(mid, users[n], ids);
      WithinTransitive(db, mid, WithRoles(mid, users[n], ids), CodesOf(db, SetOf(ids)));
    }
  }

  /** Activating a user gives it at most what all its roles carry. */
  lemma ActivationStaysWithin(db: Db, user: UserId, status: Status)
    requires Alive(db, user)
    ensures var db' := db.(users := db.users[user := Account(status, false)]);
            Within(db, db', if status == Active then CodesOf(db, RoleIdsOf(db, user)) else {})
  {}

  lemma RemovalStaysWithin(db: Db, db': Db)
    requires db'.members <= db.members && db'.grants <= db.grants && db'.permissions == db.permissions
    requires forall r :: r in db'.roles ==> r in db.roles && db'.roles[r] == db.roles[r]
    requires forall u :: u in db'.users ==> u in db.users && db'.users[u].status == db.users[u].status
                                            && (db.users[u].deleted ==> db'.users[u].deleted)
    ensures Within(db, db', {})
  {}

  /** A new role or a new user has no members and no effect by itself. */
  lemma AdditionStaysWithin(db: Db, db': Db)
    requires Valid(db)
    requires db'.members == db.members && db'.grants == db.grants && db'.permissions == db.permissions
    requires forall r :: r in db'.roles && r in db.roles ==> db'.roles[r] == db.roles[r]
    requires forall u :: u in db'.users && u in db.users ==> db'.users[u] == db.users[u]
    ensures Within(db, db', {})
  {}

  lemma WithinMonotone(a: Db, b: Db, P: set<Code>, Q: set<Code>)
    requires Within(a, b, P) && P <= Q
    ensures Within(a, b, Q)
  {}

  /** One service call gives nobody a code outside what it had and what the acting user has. */
  lemma StepStaysWithin(db: Db, op: Op)
    requires Valid(db) && Apply(db, op).Some?
    ensures Within(db, Apply(db, op).value, Effective(db, op.actor))
  {
    var db' := Apply(db, op).value;
    var P := Effective(db, op.actor);
    match op
    case CreateRole(actor, role, code, ids) =>
      var mid := db.(roles := db.roles[role := Role(code, true)]);
      AdditionStaysWithin(db, mid);
      WithinMonotone(db, mid, {}, P);
      if ids.Some? {
        PermissionsStayWithin(mid, role, ids.value);
        assert CodesById(mid, ids.value) == CodesById(db, ids.value);
        WithinMonotone(mid, db', CodesById(db, ids.value), P);
        WithinTransitive(db, mid, db', P);
      }
    case UpdateRole(actor, role, activate) =>
      if activate.Some? {
        RoleUpdateStaysWithin(db, role, activate.value);
        WithinMonotone(db, db', if activate.value then CodesOf(db, {role}) else {}, P);
      } else {
        assert db'.roles == db.roles;
      }
    case DeleteRole(_, _) =>
      RemovalStaysWithin(db, db');
      WithinMonotone(db, db', {}, P);
    case AssignPermissions(_, role, ids) =>
      PermissionsStayWithin(db, role, ids);
      WithinMonotone(db, db', CodesById(db, ids), P);
    case CreateUser(_, user, status, ids) =>
      var mid := db.(users := db.users[user := Account(status, false)]);
      AdditionStaysWithin(db, mid);
      WithinMonotone(db, mid, {}, P);
      if ids.Some? {
        RolesStayWithin(mid, user, ids.value);
        assert CodesOf(mid, SetOf(ids.value)) == CodesOf(db, SetOf(ids.value));
        WithinMonotone(mid, db', CodesOf(db, SetOf(ids.value)), P);
        WithinTransitive(db, mid, db', P);
      }
    case UpdateUser(_, user, status) =>
      if status.Some? {
        ActivationStaysWithin(db, user, status.value);
        WithinMonotone(db, db', if status.value == Active then CodesOf(db, RoleIdsOf(db, user)) else {}, P);
      }
    case DeleteUser(_, _) =>
      RemovalStaysWithin(db, db');
      WithinMonotone(db, db', {}, P);
    case AssignRoles(_, users, ids) =>
      RolesForAllStayWithin(db, users, ids);
      WithinMonotone(db, db', CodesOf(db, SetOf(ids)), P);
  }

  lemma StepKeepsValid(db: Db, op: Op)
    requires Valid(db) && Apply(db, op).Some?
    ensures Valid(Apply(db, op).value)
  {
    if op.AssignRoles? {
      RolesForAllStayWithin(db, op.users, op.roles);
    }
  }

  // ---------------------------------------------------------------- whole runs

  /**
   No amplification: if every acting user's initial codes lie in P, then after any run, in which actors may
   use whatever they or their accomplices were granted meanwhile, no user has a code outside P that it did
   not have at the start.
   */
  lemma {:induction false} NoAmplification(db: Db, ops: seq<Op>, P: set<Code>)
    requires Valid(db) && Run(db, ops).Some?
    requires forall i :: 0 <= i < |ops| ==> Effective(db, ops[i].actor) <= P
    ensures Within(db, Run(db, ops).value, P) && Valid(Run(db, ops).value)
    decreases |ops|
  {
    if ops != [] {
      var db' := Apply(db, ops[0]).value;
      StepStaysWithin(db, ops[0]);
      StepKeepsValid(db, ops[0]);
      WithinMonotone(db, db', Effective(db, ops[0].actor), P);
      forall i | 0 <= i < |ops[1..]| ensures Effective(db', ops[1..][i].actor) <= P {
        assert ops[1..][i] == ops[i + 1];
        assert Effective(db', ops[i + 1].actor) <= Effective(db, ops[i + 1].actor) + P;
      }
      NoAmplification(db', ops[1..], P);
      WithinTransitive(db, db', Run(db, ops).value, P);
    }
  }

  /** Every role grants management permissions only together with the reads they depend on. */
  ghost predicate DependenciesClosed(db: Db) {
    forall r :: r in db.roles ==> DependenciesMet(CodesOf(db, {r}))
  }

  ghost predicate SuperAdminIntact(db: Db, db': Db) {
    forall r :: r in db.roles && db.roles[r].code == SUPER_ADMIN ==>
      && r in db'.roles && db'.roles[r].code == SUPER_ADMIN
      && (db.roles[r].active ==> db'.roles[r].active)
      && (forall p :: (r, p) in db.grants <==> (r, p) in db'.grants)
  }

  lemma CodesOfAssigned(db: Db, role: RoleId, ids: seq<PermissionId>)
    requires forall i :: i in ids ==> i in db.permissions
    ensures CodesOf(WithPermissions(db, role, ids), {role}) == CodesById(db, ids)
    ensures forall r :: r != role ==> CodesOf(WithPermissions(db, role, ids), {r}) == CodesOf(db, {r})
  {}

  lemma SameCodes(db: Db, db': Db, r: RoleId)
    requires db'.permissions == db.permissions && forall p :: (r, p) in db.grants <==> (r, p) in db'.grants
    ensures CodesOf(db', {r}) == CodesOf(db, {r})
  {}

  lemma CreationKeepsRoles(db: Db, op: Op)
    requires Valid(db) && DependenciesClosed(db) && op.CreateRole? && Apply(db, op).Some?
    ensures DependenciesClosed(Apply(db, op).value) && SuperAdminIntact(db, Apply(db, op).value)
  {
    var CreateRole(_, role, code, ids) := op;
    var mid := db.(roles := db.roles[role := Role(code, true)]);
    assert CodesOf(mid, {role}) == {} by {
      if c :| c in CodesOf(mid, {role}) { var g := CodeHasGrant(mid, {role}, c); }
    }
    forall r | r in db.roles ensures CodesOf(mid, {r}) == CodesOf(db, {r}) { SameCodes(db, mid, r); }
    if ids.Some? {
      CodesOfAssigned(mid, role, ids.value);
      assert CodesById(mid, ids.value) == CodesById(db, ids.value);
    }
  }

  lemma AssignmentKeepsRoles(db: Db, op: Op)
    requires Valid(db) && DependenciesClosed(db) && op.AssignPermissions? && Apply(db, op).Some?
    ensures DependenciesClosed(Apply(db, op).value) && SuperAdminIntact(db, Apply(db, op).value)
  {
    CodesOfAssigned(db, op.role, op.ids);
  }

  /** Steps that leave the grants of the remaining roles alone keep the dependency rule. */
  lemma SameGrantsKeepClosed(db: Db, db': Db)
    requires DependenciesClosed(db) && db'.permissions == db.permissions && db'.roles.Keys <= db.roles.Keys
    requires forall r, p :: r in db'.roles ==> ((r, p) in db.grants <==> (r, p) in db'.grants)
    ensures DependenciesClosed(db')
  {}

  lemma StepKeepsRoles(db: Db, op: Op)
    requires Valid(db) && DependenciesClosed(db) && Apply(db, op).Some?
    ensures DependenciesClosed(Apply(db, op).value) && SuperAdminIntact(db, Apply(db, op).value)
  {
    var db' := Apply(db, op).value;
    match op
    case CreateRole(_, _, _, _) =>
      CreationKeepsRoles(db, op);
    case AssignPermissions(_, _, _) =>
      AssignmentKeepsRoles(db, op);
    case AssignRoles(_, users, ids) =>
      RolesForAllStayWithin(db, users, ids);
      SameGrantsKeepClosed(db, db');
    case _ =>
      SameGrantsKeepClosed(db, db');
  }

  /** No run breaks the dependency rule, or deactivates, deletes or changes the permissions of super_admin. */
  lemma {:induction false} RunKeepsRoles(db: Db, ops: seq<Op>)
    requires Valid(db) && DependenciesClosed(db) && Run(db, ops).Some?
    ensures DependenciesClosed(Run(db, ops).value) && SuperAdminIntact(db, Run(db, ops).value)
    ensures forall r :: r in Run(db, ops).value.roles ==>
              var codes := CodesOf(Run(db, ops).value, {r});
              && ("role:permissions:write" in codes ==>
                    "role:directory:read" in codes && "permission:directory:read" in codes)
              && ("organization:department:write" in codes ==> "organization:department:read" in codes)
    decreases |ops|
  {
    if ops != [] {
      StepKeepsRoles(db, ops[0]);
      StepKeepsValid(db, ops[0]);
      RunKeepsRoles(Apply(db, ops[0]).value, ops[1..]);
    }
  }

  // ---------------------------------------------------------------- the statements a transaction issues

  class Transaction {
    var db: Db

    constructor (initial: Db)
      ensures db == initial
    {
      db := initial;
    }

    /** roles::assign_permissions of the repository: one DELETE, then one INSERT per permission. */
    method AssignPermissions(role: RoleId, ids: seq<PermissionId>)
      modifies this
      ensures db == WithPermissions(old(db), role, ids)
      ensures forall g :: g in db.grants <==> if g.0 == role then g.1 in ids else g in old(db).grants
    {
      db := db.(grants := (set g | g in db.grants && g.0 != role));
      for i := 0 to |ids|
        invariant db == WithPermissions(old(db), role, ids[..i])
      {
        assert ids[..i + 1] == ids[..i] + [ids[i]];
        db := db.(grants := db.grants + {(role, ids[i])});
      }
      assert ids[..|ids|] == ids;
    }

    /** users::assign_roles of the repository. */
    method ReplaceRoles(user: UserId, ids: seq<RoleId>)
      modifies this
      ensures db == WithRoles(old(db), user, ids)
      ensures forall m :: m in db.members <==> if m.0 == user then m.1 in ids else m in old(db).members
    {
      db := db.(members := (set m | m in db.members && m.0 != user));
      for i := 0 to |ids|
        invariant db == WithRoles(old(db), user, ids[..i])
      {
        assert ids[..i + 1] == ids[..i] + [ids[i]];
        db := db.(members := db.members + {(user, ids[i])});
      }
      assert ids[..|ids|] == ids;
    }

    /** roles::assign_permissions of the service: checks first, then the replacement. */
    method AssignRolePermissions(actor: UserId, role: RoleId, ids: seq<PermissionId>) returns (ok: bool)
      modifies this
      ensures ok == Apply(old(db), Op.AssignPermissions(actor, role, ids)).Some?
      ensures db == if ok then Apply(old(db), Op.AssignPermissions(actor, role, ids)).value else old(db)
      ensures ok <==>
        && role in old(db).roles && old(db).roles[role].code != "super_admin"
        && (forall i, j :: 0 <= i < j < |ids| ==> ids[i] != ids[j])
        && (forall i :: i in ids ==> i in old(db).permissions)
        && ("role:permissions:write" in CodesById(old(db), ids) ==>
              && "role:directory:read" in CodesById(old(db), ids)
              && "permission:directory:read" in CodesById(old(db), ids))
        && ("organization:department:write" in CodesById(old(db), ids) ==>
              "organization:department:read" in CodesById(old(db), ids))
        && (forall i :: i in ids ==> old(db).permissions[i] in Effective(old(db), actor))
      ensures ok ==> forall g :: g in db.grants <==> if g.0 == role then g.1 in ids else g in old(db).grants
    {
      if role !in db.roles || db.roles[role].code == SUPER_ADMIN || !PermissionsGrantable(db, actor, ids) {
        return false;
      }
      AssignPermissions(role, ids);
      return true;
    }

    /** users::assign_roles and assign_roles_many: every target is checked before the first write. */
    method AssignRolesMany(actor: UserId, users: seq<UserId>, ids: seq<RoleId>) returns (ok: bool)
      modifies this
      ensures ok == Apply(old(db), AssignRoles(actor, users, ids)).Some?
      ensures db == if ok then Apply(old(db), AssignRoles(actor, users, ids)).value else old(db)
      ensures ok <==>
        && (forall i, j :: 0 <= i < j < |users| ==> users[i] != users[j])
        && (forall i, j :: 0 <= i < j < |ids| ==> ids[i] != ids[j])
        && (forall u :: u in users ==> u in old(db).users && !old(db).users[u].deleted)
        && (forall r :: r in ids ==> r in old(db).roles && old(db).roles[r].active)
        && (forall r :: r in ids && old(db).roles[r].code == "super_admin"
              ==> "user:super_admin:grant" in Effective(old(db), actor))
        && (forall r, p :: r in ids && (r, p) in old(db).grants && p in old(db).permissions
              ==> old(db).permissions[p] in Effective(old(db), actor))
      ensures ok ==> forall m :: m in db.members <==> if m.0 in users then m.1 in ids else m in old(db).members
    {
      CodesWithin(db, SetOf(ids), Effective(db, actor));
      if !Distinct(users) || !RolesGrantable(db, actor, ids) {
        return false;
      }
      for i := 0 to |users|
        invariant forall u :: u in users[..i] ==> Alive(db, u)
        invariant db == old(db)
      {
        if !Alive(db, users[i]) {
          return false;
        }
      }
      for i := 0 to |users|
        invariant db == WithRolesForAll(old(db), users[..i], ids)
      {
        assert users[..i + 1][..i] == users[..i];
        ReplaceRoles(users[i], ids);
      }
      assert users[..|users|] == users;
      RolesForAll(old(db), users, ids);
      return true;
    }
  }
}
