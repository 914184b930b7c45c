/**
 The user repository and the batch services as they run inside one transaction: tables updated in
 place, loops over ids, and rollback on the first error. Each method is proved against the statement
 plans of the interleaving machine run by a single transaction.
 */
module UserStore {
  import opened Prelude
  import opened SuperAdminGuard

  /** A statement executed directly on the tables. */
  function Effect(op: Op, v: Db): Option<Db> {
    match op
    case LockRoleRow => Some(v)
    case CheckLast(u) => if u in SuperAdmins(v) && |SuperAdmins(v)| <= 1 then None else Some(v)
    case SoftDelete(u) =>
      if !Alive(v, u) then None
      else Some(v.(users := v.users[u := v.users[u].(deleted := true)], links := v.links - LinksOf(u, v.links)))
    case WriteProfile(u, status) =>
      if !Alive(v, u) then None
      else if status.None? then Some(v)
      else Some(v.(users := v.users[u := v.users[u].(status := status.value)]))
    case ReplaceRoles(u, roles) => Some(v.(links := (v.links - LinksOf(u, v.links)) + LinksTo(u, roles)))
    case InsertUser(u, status) =>
      if u in v.users then None else Some(v.(users := v.users[u := Account(status, false)]))
  }

  function Effects(plan: seq<Op>, v: Db): Option<Db> {
    if plan == [] then Some(v)
    else
      var v' := Effect(plan[0], v);
      if v'.None? then None else Effects(plan[1..], v'.value)
  }

  /** A transaction alone in the interleaving machine: the writes it would commit. */
  function Alone(plan: seq<Op>, d: Delta, db: Db): Option<Delta> {
    if plan == [] then Some(d)
    else
      var d' := Write(plan[0], d, Apply(d, db));
      if d'.None? then None else Alone(plan[1..], d'.value, db)
  }

  lemma ApplyNothing(db: Db)
    ensures Apply(NOTHING, db) == db
  {}

  /** Buffering a write and overlaying it is the same as updating the tables in place. */
  lemma OverlayIsInPlace(op: Op, d: Delta, db: Db)
    requires !op.InsertUser?
    ensures Write(op, d, Apply(d, db)).Some? <==> Effect(op, Apply(d, db)).Some?
    ensures Effect(op, Apply(d, db)).Some? ==>
              Apply(Write(op, d, Apply(d, db)).value, db) == Effect(op, Apply(d, db)).value
  {}

  lemma {:induction false} AloneIsInPlace(plan: seq<Op>, d: Delta, db: Db)
    requires forall op :: op in plan ==> !op.InsertUser?
    ensures Alone(plan, d, db).Some? <==> Effects(plan, Apply(d, db)).Some?
    ensures Alone(plan, d, db).Some? ==> Apply(Alone(plan, d, db).value, db) == Effects(plan, Apply(d, db)).value
    decreases |plan|
  {
    if plan != [] {
      OverlayIsInPlace(plan[0], d, db);
      if Effect(plan[0], Apply(d, db)).Some? {
        AloneIsInPlace(plan[1..], Write(plan[0], d, Apply(d, db)).value, db);
      }
    }
  }

  lemma {:induction false} EffectsConcat(a: seq<Op>, b: seq<Op>, v: Db)
    ensures Effects(a + b, v) == (if Effects(a, v).None? then None else Effects(b, Effects(a, v).value))
    decreases |a|
  {
    if a == [] {
      assert a + b == b;
    } else {
      assert (a + b)[1..] == a[1..] + b;
      if Effect(a[0], v).Some? {
        EffectsConcat(a[1..], b, Effect(a[0], v).value);
      }
    }
  }

  lemma {:induction false} DeleteManyHasNoInsert(us: seq<UserId>)
    ensures forall op :: op in DeleteManyPlan(us) ==> !op.InsertUser?
  {
    if us != [] { DeleteManyHasNoInsert(us[1..]); }
  }

  lemma {:induction false} AssignManyHasNoInsert(us: seq<UserId>, roles: seq<RoleCode>, known: bool)
    ensures forall op :: op in AssignManyPlan(us, roles, known) ==> !op.InsertUser?
  {
    if us != [] { AssignManyHasNoInsert(us[1..], roles, known); }
  }

  lemma GuardedEffects(op: Op, v: Db)
    requires !op.LockRoleRow? && !op.CheckLast?
    ensures Effects([LockRoleRow, CheckLast(op.user), op], v)
         == if Effect(CheckLast(op.user), v).None? then None else Effect(op, v)
  {
    var plan := [LockRoleRow, CheckLast(op.user), op];
    assert plan[1..][1..] == [op];
    assert [op][1..] == [];
    assert Effects([op], v) == Effect(op, v);
    assert Effects(plan[1..], v) == if Effect(CheckLast(op.user), v).None? then None else Effects([op], v);
  }

  lemma OnlyOne<T>(s: set<T>, x: T)
    requires x in s
    ensures |s| <= 1 <==> s == {x}
  {
    if |s| >= 2 { AtLeastTwo(s, x); }
    SubsetSize({x}, s);
    assert |s| == 1 && s != {x} ==> |s - {x}| == 0;
  }

  class Connection {
    var db: Db

    constructor (db: Db)
      ensures this.db == db
    {
      this.db := db;
    }

    /** repositories::users::super_admin_guard_state, with the lock already taken. */
    method GuardState(user: UserId) returns (isActiveSuperAdmin: bool, activeCount: nat)
      ensures isActiveSuperAdmin <==> user in SuperAdmins(db)
      ensures isActiveSuperAdmin <==> user in db.users && !db.users[user].deleted && db.users[user].status == Active
                                      && (user, "super_admin") in db.links
      ensures activeCount == |SuperAdmins(db)|
    {
      var holders := SuperAdmins(db);
      isActiveSuperAdmin := user in db.users && !db.users[user].deleted && db.users[user].status == Active
                            && (user, SUPER_ADMIN) in db.links;
      activeCount := |holders|;
    }

    /** services::users::protect_last_super_admin: refuses exactly the only super administrator there is. */
    method ProtectLast(user: UserId) returns (allowed: bool)
      ensures allowed <==> Effect(CheckLast(user), db).Some?
      ensures !allowed <==> SuperAdmins(db) == {user}
    {
      var isActiveSuperAdmin, activeCount := GuardState(user);
      allowed := !isActiveSuperAdmin || activeCount > 1;
      if isActiveSuperAdmin { OnlyOne(SuperAdmins(db), user); }
    }

    /**
     repositories::users::soft_delete: a living user goes together with its links, every other account and link
     stays, and only this user can stop being a super administrator.
     */
    method SoftDeleteUser(user: UserId) returns (deleted: bool)
      modifies this
      ensures deleted <==> Alive(old(db), user)
      ensures !Alive(db, user) && db.users.Keys == old(db).users.Keys && db.roles == old(db).roles
      ensures forall u :: u in db.users && u != user ==> db.users[u] == old(db).users[u]
      ensures deleted ==> forall l :: l in db.links <==> l in old(db).links && l.0 != user
      ensures SuperAdmins(db) == SuperAdmins(old(db)) - {user}
      ensures deleted <==> Effect(SoftDelete(user), old(db)).Some?
      ensures db == if deleted then Effect(SoftDelete(user), old(db)).value else old(db)
    {
      deleted := user in db.users && !db.users[user].deleted;
      if deleted {
        db := db.(users := db.users[user := db.users[user].(deleted := true)]);
        db := db.(links := db.links - LinksOf(user, db.links));
      }
    }

    /**
     The status part of repositories::users::update_profile: a living user gets the given status or keeps its own,
     every other account stays.
     */
    method UpdateStatus(user: UserId, status: Option<Status>) returns (updated: bool)
      modifies this
      ensures updated <==> user in old(db).users && !old(db).users[user].deleted
      ensures db.links == old(db).links && db.roles == old(db).roles && db.codes == old(db).codes
      ensures db.users.Keys == old(db).users.Keys
      ensures forall u :: u in db.users ==>
                && db.users[u].deleted == old(db).users[u].deleted
                && db.users[u].status == if updated && u == user && status.Some? then status.value
                                         else old(db).users[u].status
      ensures Effect(WriteProfile(user, status), old(db)) == if updated then Some(db) else None
    {
      updated := user in db.users && !db.users[user].deleted;
      if updated && status.Some? {
        db := db.(users := db.users[user := db.users[user].(status := status.value)]);
      }
    }

    /** repositories::users::create: the id comes from the sequence, so no row has it yet. */
    method InsertUserRow(user: UserId, initial: Status)
      requires user !in db.users
      modifies this
      ensures db.links == old(db).links && db.roles == old(db).roles && db.codes == old(db).codes
      ensures db.users == old(db).users[user := Account(initial, false)]
      ensures Effect(InsertUser(user, initial), old(db)) == Some(db)
    {
      db := db.(users := db.users[user := Account(initial, false)]);
    }

    /**
     repositories::users::assign_roles: one DELETE, then one INSERT for each role. Whatever the user had before is
     gone, it has exactly the given roles, and nobody else's links change.
     */
    method AssignUserRoles(user: UserId, roles: seq<RoleCode>)
      modifies this
      ensures forall l :: l in db.links <==> (l in old(db).links && l.0 != user) || (l.0 == user && l.1 in roles)
      ensures db.users == old(db).users && db.roles == old(db).roles && db.codes == old(db).codes
      ensures Some(db) == Effect(ReplaceRoles(user, roles), old(db))
    {
      var kept := db.links - LinksOf(user, db.links);
      db := db.(links := kept);
      for i := 0 to |roles|
        invariant db == old(db).(links := kept + LinksTo(user, roles[..i]))
      {
        assert LinksTo(user, roles[..i + 1]) == LinksTo(user, roles[..i]) + {(user, roles[i])};
        db := db.(links := db.links + {(user, roles[i])});
      }
      assert roles[..|roles|] == roles;
    }

    /** services::users::delete_many: all users or none. */
    method DeleteUsers(users: seq<UserId>) returns (ok: bool)
      modifies this
      ensures ok <==> Alone(DeleteManyPlan(users), NOTHING, old(db)).Some?
      ensures db == if ok then Apply(Alone(DeleteManyPlan(users), NOTHING, old(db)).value, old(db)) else old(db)
      ensures ok ==>
        && (forall u :: u in users ==> u in old(db).users && !old(db).users[u].deleted && db.users[u].deleted)
        && (forall u :: u in old(db).users && u !in users ==> u in db.users && db.users[u] == old(db).users[u])
        && (forall l :: l in db.links <==> l in old(db).links && l.0 !in users)
        && (SuperAdmins(old(db)) != {} ==> SuperAdmins(db) != {})
    {
      var saved := db;
      ApplyNothing(saved);
      DeleteManyHasNoInsert(users);
      AloneIsInPlace(DeleteManyPlan(users), NOTHING, saved);
      assert users[0..] == users;
      for i := 0 to |users|
        invariant Effects(DeleteManyPlan(users), saved) == Effects(DeleteManyPlan(users[i..]), db)
      {
        var user := users[i];
        assert users[i..][0] == user && users[i..][1..] == users[i + 1..];
        EffectsConcat(DeletePlan(user), DeleteManyPlan(users[i + 1..]), db);
        GuardedEffects(SoftDelete(user), db);
        var allowed := ProtectLast(user);
        if !allowed {
          db := saved;
          return false;
        }
        var deleted := SoftDeleteUser(user);
        if !deleted {
          db := saved;
          return false;
        }
      }
      ok := true;
      BatchDeleteOutcome(users, saved);
    }

    /** services::users::assign_roles_many; `known` is what id_by_code found before the transaction. */
    method AssignRolesToUsers(users: seq<UserId>, roles: seq<RoleCode>, known: bool) returns (ok: bool)
      modifies this
      ensures ok <==> Alone(AssignManyPlan(users, roles, known), NOTHING, old(db)).Some?
      ensures db == if ok then Apply(Alone(AssignManyPlan(users, roles, known), NOTHING, old(db)).value, old(db))
                    else old(db)
      ensures ok ==>
        && db.users == old(db).users && db.roles == old(db).roles && db.codes == old(db).codes
        && (forall l :: l in db.links <==> if l.0 in users then l.1 in roles else l in old(db).links)
        && (SuperAdmins(old(db)) != {} ==> SuperAdmins(db) != {})
    {
      var saved := db;
      ApplyNothing(saved);
      AssignManyHasNoInsert(users, roles, known);
      AloneIsInPlace(AssignManyPlan(users, roles, known), NOTHING, saved);
      assert users[0..] == users;
      for i := 0 to |users|
        invariant Effects(AssignManyPlan(users, roles, known), saved)
            == Effects(AssignManyPlan(users[i..], roles, known), db)
      {
        var user := users[i];
        assert users[i..][0] == user && users[i..][1..] == users[i + 1..];
        EffectsConcat(AssignPlan(user, roles, known), AssignManyPlan(users[i + 1..], roles, known), db);
        GuardedEffects(ReplaceRoles(user, roles), db);
        assert [ReplaceRoles(user, roles)][1..] == [];
        if !(known && SUPER_ADMIN in roles) {
          var allowed := ProtectLast(user);
          if !allowed {
            db := saved;
            return false;
          }
        }
        AssignUserRoles(user, roles);
      }
      ok := true;
      BatchAssignOutcome(users, roles, known, saved);
    }
  }

  lemma DeletionLeavesOne(u: UserId, v: Db, m: Db)
    requires SuperAdmins(v) != {} && Effect(CheckLast(u), v).Some? && Effect(SoftDelete(u), v) == Some(m)
    ensures SuperAdmins(m) != {}
  {
    GuardLeavesSurvivor(v, u);
    var w :| w in SuperAdmins(v) && Some(u) != Some(w);
    assert w in SuperAdmins(m);
  }

  /**
   A batch that runs alone deletes exactly its users and their links, and leaves a super administrator if
   there was one.
   */
  lemma {:induction false} BatchDeleteOutcome(us: seq<UserId>, v: Db)
    requires Effects(DeleteManyPlan(us), v).Some?
    ensures var v' := Effects(DeleteManyPlan(us), v).value;
            && v'.users.Keys == v.users.Keys
            && (forall u :: u in v.users ==>
                v'.users[u] == if u in us then v.users[u].(deleted := true) else v.users[u])
            && v'.links == (set l | l in v.links && l.0 !in us)
            && (SuperAdmins(v) != {} ==> SuperAdmins(v') != {})
    ensures Distinct(us) && forall u :: u in us ==> Alive(v, u)
    decreases |us|
  {
    if us != [] {
      EffectsConcat(DeletePlan(us[0]), DeleteManyPlan(us[1..]), v);
      GuardedEffects(SoftDelete(us[0]), v);
      var m := Effect(SoftDelete(us[0]), v).value;
      BatchDeleteOutcome(us[1..], m);
      assert forall u :: u in us <==> u == us[0] || u in us[1..];
      if SuperAdmins(v) != {} {
        DeletionLeavesOne(us[0], v, m);
      }
    }
  }

  /** Replacing one user's roles after the guard, or by a list that keeps super_admin, leaves one if there was one. */
  lemma AssignmentLeavesOne(u: UserId, roles: seq<RoleCode>, v: Db, m: Db)
    requires SuperAdmins(v) != {} && Effect(ReplaceRoles(u, roles), v) == Some(m)
    requires SUPER_ADMIN in roles || Effect(CheckLast(u), v).Some?
    ensures SuperAdmins(m) != {}
  {
    if SUPER_ADMIN in roles {
      var w :| w in SuperAdmins(v);
      assert w in SuperAdmins(m);
    } else {
      GuardLeavesSurvivor(v, u);
      var w :| w in SuperAdmins(v) && Some(u) != Some(w);
      assert w in SuperAdmins(m);
    }
  }

  lemma AssignEffects(u: UserId, roles: seq<RoleCode>, known: bool, v: Db) returns (m: Db)
    requires Effects(AssignPlan(u, roles, known), v).Some?
    ensures Effects(AssignPlan(u, roles, known), v) == Some(m) == Effect(ReplaceRoles(u, roles), v)
    ensures !(known && SUPER_ADMIN in roles) ==> Effect(CheckLast(u), v).Some?
  {
    GuardedEffects(ReplaceRoles(u, roles), v);
    assert [ReplaceRoles(u, roles)][1..] == [];
    m := Effect(ReplaceRoles(u, roles), v).value;
  }

  /**
   A batch of assignments that runs alone leaves every listed user exactly the given roles and everyone else's links
   as they were, and leaves a super administrator if there was one.
   */
  lemma {:induction false} BatchAssignOutcome(us: seq<UserId>, roles: seq<RoleCode>, known: bool, v: Db)
    requires Effects(AssignManyPlan(us, roles, known), v).Some?
    ensures var v' := Effects(AssignManyPlan(us, roles, known), v).value;
            && v'.users == v.users && v'.roles == v.roles && v'.codes == v.codes
            && (forall l :: l in v'.links <==> if l.0 in us then l.1 in roles else l in v.links)
            && (SuperAdmins(v) != {} ==> SuperAdmins(v') != {})
    decreases |us|
  {
    if us != [] {
      EffectsConcat(AssignPlan(us[0], roles, known), AssignManyPlan(us[1..], roles, known), v);
      var m := AssignEffects(us[0], roles, known, v);
      BatchAssignOutcome(us[1..], roles, known, m);
      assert forall u :: u in us <==> u == us[0] || u in us[1..];
      if SuperAdmins(v) != {} {
        AssignmentLeavesOne(us[0], roles, v, m);
      }
    }
  }

  /** A single deletion that runs alone. */
  lemma DeletionOutcome(u: UserId, v: Db)
    requires Alone(DeletePlan(u), NOTHING, v).Some?
    ensures var v' := Apply(Alone(DeletePlan(u), NOTHING, v).value, v);
            && u in v.users && !v.users[u].deleted && v'.users == v.users[u := Account(v.users[u].status, true)]
            && v'.links == (set l | l in v.links && l.0 != u) && v'.roles == v.roles && v'.codes == v.codes
  {
    ApplyNothing(v);
    AloneIsInPlace(DeletePlan(u), NOTHING, v);
    GuardedEffects(SoftDelete(u), v);
  }

  /** A change of status, or of the profile only, that runs alone. */
  lemma UpdateOutcome(u: UserId, status: Option<Status>, v: Db)
    requires Alone(Plan(UpdateUser(u, status), true), NOTHING, v).Some?
    ensures var v' := Apply(Alone(Plan(UpdateUser(u, status), true), NOTHING, v).value, v);
            && u in v.users && !v.users[u].deleted
            && v'.users == v.users[u := Account(if status.Some? then status.value else v.users[u].status, false)]
            && v'.links == v.links && v'.roles == v.roles && v'.codes == v.codes
  {
    var op := WriteProfile(u, status);
    ApplyNothing(v);
    AloneIsInPlace(Plan(UpdateUser(u, status), true), NOTHING, v);
    GuardedEffects(op, v);
    assert [op][1..] == [];
  }

  /** Inserting a user, then its links. */
  lemma CreationOutcome(u: UserId, status: Status, roles: seq<RoleCode>, v: Db)
    requires Alone([InsertUser(u, status), ReplaceRoles(u, roles)], NOTHING, v).Some?
    ensures var v' := Apply(Alone([InsertUser(u, status), ReplaceRoles(u, roles)], NOTHING, v).value, v);
            && u !in v.users && v'.users == v.users[u := Account(status, false)]
            && (forall l :: l in v'.links <==> if l.0 == u then l.1 in roles else l in v.links)
            && v'.roles == v.roles && v'.codes == v.codes
  {
    var plan := [InsertUser(u, status), ReplaceRoles(u, roles)];
    ApplyNothing(v);
    var d := NOTHING.(created := map[u := status]);
    assert Write(plan[0], NOTHING, v) == Some(d);
    assert plan[1..] == [ReplaceRoles(u, roles)] && plan[1..][1..] == [];
    CreatedView(u, status, v);
    OverlayIsInPlace(plan[1], d, v);
    assert Alone(plan, NOTHING, v) == Alone(plan[1..], d, v) == Write(plan[1], d, Apply(d, v));
  }

  lemma CreatedView(u: UserId, status: Status, v: Db)
    requires u !in v.users
    ensures Apply(NOTHING.(created := map[u := status]), v) == v.(users := v.users[u := Account(status, false)])
  {}
}
