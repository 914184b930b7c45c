/**
 The department services: creation, change and deletion, each service call one step, with what the actor may
 see deciding what it may touch.
 */
module Departments {
  import opened Prelude
  import opened DepartmentForest

  type UserId = nat

  datatype Scope = All | Organization | DepartmentAndChildren | Department | SelfOnly
  datatype Actor = Actor(user: UserId, org: OrgId, department: Option<DeptId>, scope: Scope)
  datatype User = User(org: OrgId, department: Option<DeptId>, deleted: bool)

  /** `logged` holds the departments that audit rows refer to. */
  datatype Db = Db(departments: Table, users: map<UserId, User>, logged: set<DeptId>)

  /** The recursive query of list and find_by_id. */
  function Visible(t: Table, actor: Actor): Query {
    Query(actor.org,
          if actor.scope.All? || actor.scope.Organization? then Roots(t)
          else if actor.department.Some? then {actor.department.value} else {},
          actor.scope.All? || actor.scope.Organization? || actor.scope.DepartmentAndChildren?)
  }

  /** What find_by_id answers: the department is in scope, that many edges below where the scope starts. */
  ghost predicate Sees(t: Table, actor: Actor, d: DeptId, depth: nat) {
    && d in t && t[d].org == actor.org
    && match actor.scope
       case All | Organization => DepthIs(t, d, depth)
       case DepartmentAndChildren => actor.department.Some? && Up(t, d, depth) == actor.department
       case Department | SelfOnly => actor.department == Some(d) && depth == 0
  }

  ghost predicate CanSee(t: Table, actor: Actor, d: DeptId) {
    exists depth: nat :: Sees(t, actor, d, depth)
  }

  /** The query's rows are the departments the scope describes. */
  lemma RowsAreSeen(t: Table, actor: Actor, p: seq<DeptId>)
    requires Closed(t) && IsRow(t, Visible(t, actor), p)
    ensures Sees(t, actor, Last(p), |p| - 1)
  {}

  lemma SeenHasRow(t: Table, actor: Actor, d: DeptId, depth: nat) returns (p: seq<DeptId>)
    requires Closed(t) && Sees(t, actor, d, depth)
    ensures IsRow(t, Visible(t, actor), p) && Last(p) == d && |p| == depth + 1
  {
    p := ChainIsRow(t, Visible(t, actor), d, depth);
  }

  lemma SeenAtOneDepth(t: Table, actor: Actor, d: DeptId, i: nat, j: nat)
    requires Forest(t) && Sees(t, actor, d, i) && Sees(t, actor, d, j)
    ensures i == j
  {
    match actor.scope
    case All => RootUnique(t, d, i, j);
    case Organization => RootUnique(t, d, i, j);
    case DepartmentAndChildren => DistanceUnique(t, d, i, j);
    case _ =>
  }

  /** departments::find_by_id */
  method FindById(t: Table, actor: Actor, id: DeptId) returns (depth: Option<nat>)
    requires Forest(t)
    ensures depth.Some? <==> CanSee(t, actor, id)
    ensures depth.Some? ==> Sees(t, actor, id, depth.value)
  {
    var rows := Evaluate(t, Visible(t, actor));
    var hits := set p | p in rows && p != [] && Last(p) == id;
    if CanSee(t, actor, id) {
      ghost var k: nat :| Sees(t, actor, id, k);
      ghost var row := SeenHasRow(t, actor, id, k);
      assert row in hits;
    }
    if hits == {} {
      return None;
    }
    var p :| p in hits;
    RowsAreSeen(t, actor, p);
    forall r | r in hits ensures r == p {
      RowsAreSeen(t, actor, r);
      SeenAtOneDepth(t, actor, id, |r| - 1, |p| - 1);
      RowsEqual(t, Visible(t, actor), p, r);
    }
    return Some(|p| - 1);
  }

  datatype Changes = Changes(parent: Option<DeptId>, code: Option<string>, name: Option<string>, active: Option<bool>)

  function OrElse<T>(o: Option<T>, otherwise: T): T {
    if o.Some? then o.value else otherwise
  }

  function Changed(d: Dept, c: Changes): Dept {
    d.(parent := if c.parent.Some? then c.parent else d.parent, code := OrElse(c.code, d.code),
       name := OrElse(c.name, d.name), active := OrElse(c.active, d.active))
  }

  datatype Op =
    | Create(actor: Actor, id: DeptId, parent: DeptId, code: string, name: string, active: bool)
    | Update(actor: Actor, id: DeptId, changes: Changes)
    | Delete(actor: Actor, id: DeptId)
    | PlaceUser(actor: Actor, user: UserId, org: OrgId, department: Option<DeptId>)
    | RemoveUser(actor: Actor, user: UserId)

  /** validate_parent */
  ghost predicate ParentAllowed(t: Table, actor: Actor, parent: DeptId) {
    CanSee(t, actor, parent) && t[parent].active
  }

  predicate CodeTaken(t: Table, org: OrgId, code: string, except: Option<DeptId>) {
    exists d :: d in t && t[d].org == org && t[d].code == code && Some(d) != except
  }

  function ChildrenOf(t: Table, id: DeptId): set<DeptId> {
    set c | c in t && t[c].parent == Some(id)
  }

  function MembersOf(db: Db, id: DeptId): set<UserId> {
    set u | u in db.users && db.users[u].department == Some(id) && !db.users[u].deleted
  }

  /** Departed members give up their reference to a deleted department. */
  function Released(users: map<UserId, User>, id: DeptId): map<UserId, User> {
    map u | u in users ::
      if users[u].department == Some(id) && users[u].deleted then users[u].(department := None) else users[u]
  }

  /** Each change writes an audit row that carries the actor's department. */
  function Logged(db: Db, actor: Actor): set<DeptId> {
    if actor.user in db.users && db.users[actor.user].department.Some?
    then db.logged + {db.users[actor.user].department.value} else db.logged
  }

  ghost predicate MayUpdate(t: Table, actor: Actor, id: DeptId, c: Changes) {
    && !(c.parent.None? && c.code.None? && c.name.None? && c.active.None?)
    && CanSee(t, actor, id) && t[id].parent.Some?
    && (c.parent.Some? && c.parent != t[id].parent ==>
          c.parent.value != id && ParentAllowed(t, actor, c.parent.value) && !Descends(t, id, c.parent.value))
    && (c.code.Some? ==> !CodeTaken(t, actor.org, c.code.value, Some(id)))
  }

  ghost predicate MayDelete(db: Db, actor: Actor, id: DeptId) {
    && CanSee(db.departments, actor, id) && db.departments[id].parent.Some?
    && ChildrenOf(db.departments, id) == {} && MembersOf(db, id) == {} && id !in Logged(db, actor)
  }

  /** None when the service answers with an error and changes nothing. */
  ghost function Apply(db: Db, op: Op): Option<Db> {
    var t := db.departments;
    match op
    case Create(actor, id, parent, code, name, active) =>
      if actor.scope.Department? || actor.scope.SelfOnly? || id in t || !ParentAllowed(t, actor, parent)
         || CodeTaken(t, actor.org, code, None) then None
      else Some(db.(departments := t[id := Dept(actor.org, Some(parent), code, name, active)],
          logged := Logged(db, actor)))
    case Update(actor, id, changes) =>
      if !MayUpdate(t, actor, id, changes) then None
      else Some(db.(departments := t[id := Changed(t[id], changes)], logged := Logged(db, actor)))
    case Delete(actor, id) =>
      if !MayDelete(db, actor, id) then None
      else Some(Db(t - {id}, Released(db.users, id), Logged(db, actor)))
    case PlaceUser(actor, user, org, department) =>
      // users::create and update check more; what every write must meet is the foreign key, which pairs the
      // department with the user's organization
      if (user in db.users && (db.users[user].deleted || db.users[user].org != org))
         || (department.Some? && (department.value !in t || t[department.value].org != org)) then None
      else Some(db.(users := db.users[user := User(org, department, false)], logged := Logged(db, actor)))
    case RemoveUser(actor, user) =>
      if user !in db.users || db.users[user].deleted then None
      else Some(db.(users := db.users[user := db.users[user].(deleted := true)], logged := Logged(db, actor)))
  }

  ghost predicate ForeignKeys(db: Db) {
    && (forall u :: u in db.users && db.users[u].department.Some? ==>
          db.users[u].department.value in db.departments
          && db.departments[db.users[u].department.value].org == db.users[u].org)
    && db.logged <= db.departments.Keys
  }

  ghost predicate CodesUnique(t: Table) {
    forall d, e :: d in t && e in t && t[d].org == t[e].org && t[d].code == t[e].code ==> d == e
  }

  ghost predicate Inv(db: Db) {
    Forest(db.departments) && CodesUnique(db.departments) && ForeignKeys(db)
  }

  lemma UpdateKeepsForest(t: Table, actor: Actor, id: DeptId, c: Changes)
    requires Forest(t) && MayUpdate(t, actor, id, c)
    ensures Forest(t[id := Changed(t[id], c)])
  {
    var t' := t[id := Changed(t[id], c)];
    var parent := t'[id].parent.value;
    forall k: nat ensures parent == t[id].parent.value ==> Up(t, parent, k) != Some(id) {
      assert parent == t[id].parent.value ==> Up(t, id, k + 1) == Up(t, parent, k);
    }
    MoveKeepsForestIff(t, t', id, parent);
  }

  lemma StepKeepsInv(db: Db, op: Op)
    requires Inv(db) && Apply(db, op).Some?
    ensures Inv(Apply(db, op).value)
  {
    match op
    case Create(actor, id, parent, code, name, active) =>
      AdditionKeepsForest(db.departments, id, Dept(actor.org, Some(parent), code, name, active));
    case Update(actor, id, changes) =>
      UpdateKeepsForest(db.departments, actor, id, changes);
    case Delete(actor, id) =>
      DeleteKeepsInv(db, actor, id);
    case _ =>
  }

  lemma DeleteKeepsInv(db: Db, actor: Actor, id: DeptId)
    requires Inv(db) && MayDelete(db, actor, id)
    ensures Inv(Db(db.departments - {id}, Released(db.users, id), Logged(db, actor)))
  {
    forall c | c in db.departments ensures db.departments[c].parent != Some(id) {
      assert c !in ChildrenOf(db.departments, id);
    }
    RemovalKeepsForest(db.departments, id);
    forall u | u in db.users && db.users[u].department == Some(id) ensures db.users[u].deleted {
      assert u !in MembersOf(db, id);
    }
  }

  /** What no step changes: the roots, and the organization of every department that stays. */
  ghost predicate RootsAndOrgsKept(t: Table, t': Table) {
    && Roots(t') == Roots(t)
    && forall d :: d in t && d in t' && d in Roots(t) ==> t'[d] == t[d]
  }

  lemma StepKeepsRoots(db: Db, op: Op)
    requires Apply(db, op).Some?
    ensures RootsAndOrgsKept(db.departments, Apply(db, op).value.departments)
    ensures forall d :: d in db.departments && d in Apply(db, op).value.departments
              ==> Apply(db, op).value.departments[d].org == db.departments[d].org
  {}

  /** A change gives each field it mentions the value it mentions and leaves the others. */
  lemma ChangeOutcome(db: Db, op: Op)
    requires op.Update? && Apply(db, op).Some?
    ensures var t, t' := db.departments, Apply(db, op).value.departments;
            && op.id in t && t'.Keys == t.Keys && Apply(db, op).value.users == db.users
            && (forall d :: d in t && d != op.id ==> t'[d] == t[d])
            && t'[op.id].org == t[op.id].org
            && t'[op.id].parent == (if op.changes.parent.Some? then op.changes.parent else t[op.id].parent)
            && t'[op.id].code == (if op.changes.code.Some? then op.changes.code.value else t[op.id].code)
            && t'[op.id].name == (if op.changes.name.Some? then op.changes.name.value else t[op.id].name)
            && t'[op.id].active == (if op.changes.active.Some? then op.changes.active.value else t[op.id].active)
  {}

  /**
   A new department is an empty leaf in the actor's organization under an active parent the actor sees, created by an
   actor whose scope reaches below its own department, with a code that is free there.
   */
  lemma CreationOutcome(db: Db, op: Op)
    requires Inv(db) && op.Create? && Apply(db, op).Some?
    ensures var t, t' := db.departments, Apply(db, op).value.departments;
            && op.id !in t && t' == t[op.id := Dept(op.actor.org, Some(op.parent), op.code, op.name, op.active)]
            && Apply(db, op).value.users == db.users
            && CanSee(t, op.actor, op.parent) && op.parent in t && t[op.parent].active
            && t[op.parent].org == op.actor.org
            && (op.actor.scope.All? || op.actor.scope.Organization? || op.actor.scope.DepartmentAndChildren?)
            && (forall d :: d in t && t[d].org == op.actor.org ==> t[d].code != op.code)
  {}

  /**
   A deleted department had a parent, no children, no living members and no audit rows; only its departed members
   change.
   */
  lemma DeletionOutcome(db: Db, op: Op)
    requires op.Delete? && Apply(db, op).Some?
    ensures var t, db' := db.departments, Apply(db, op).value;
            && op.id in t && t[op.id].parent.Some? && CanSee(t, op.actor, op.id)
            && db'.departments == t - {op.id} && db'.users.Keys == db.users.Keys && op.id !in db.logged
            && (forall d :: d in t ==> t[d].parent != Some(op.id))
            && forall u :: u in db.users ==>
                 if db.users[u].department == Some(op.id)
                 then db.users[u].deleted && db'.users[u] == User(db.users[u].org, None, true)
                 else db'.users[u] == db.users[u]
  {
    forall d | d in db.departments ensures db.departments[d].parent != Some(op.id) {
      assert d !in ChildrenOf(db.departments, op.id);
    }
    forall u | u in db.users && db.users[u].department == Some(op.id) ensures db.users[u].deleted {
      assert u !in MembersOf(db, op.id);
    }
  }

  /** A move is accepted only when the new parent is outside the moved subtree, active and in scope. */
  lemma AcceptedMove(db: Db, op: Op)
    requires Inv(db) && op.Update? && Apply(db, op).Some?
    requires Apply(db, op).value.departments[op.id].parent != db.departments[op.id].parent
    ensures var t := db.departments; var parent := Apply(db, op).value.departments[op.id].parent;
            && parent.Some? && parent.value in t && t[parent.value].active && t[parent.value].org == t[op.id].org
            && !Descends(t, op.id, parent.value) && CanSee(t, op.actor, parent.value)
  {}

  ghost function Run(db: Db, ops: seq<Op>): Option<Db>
    decreases |ops|
  {
    if ops == [] then Some(db)
    else
      var db' := Apply(db, ops[0]);
      if db'.None? then None else Run(db'.value, ops[1..])
  }

  /**
   Every table reachable from a forest is a forest with edges inside one organization, the roots are the same
   departments with the same data, codes stay unique and no user or audit row refers to a missing department.
   */
  lemma {:induction false} RunKeepsForest(db: Db, ops: seq<Op>)
    requires Inv(db) && Run(db, ops).Some?
    ensures Inv(Run(db, ops).value)
    ensures RootsAndOrgsKept(db.departments, Run(db, ops).value.departments)
    decreases |ops|
  {
    if ops != [] {
      var db' := Apply(db, ops[0]).value;
      StepKeepsInv(db, ops[0]);
      StepKeepsRoots(db, ops[0]);
      RunKeepsForest(db', ops[1..]);
      var t, t', t'' := db.departments, db'.departments, Run(db, ops).value.departments;
      forall d | d in t && d in t'' && d in Roots(t) ensures t''[d] == t[d] {
        assert d in Roots(t') && d in Roots(t'');
      }
    }
  }

  // ---------------------------------------------------------------- the services

  class DepartmentService {
    var db: Db

    constructor (initial: Db)
      ensures db == initial
    {
      db := initial;
    }

    method ValidateParent(actor: Actor, parent: DeptId) returns (ok: bool)
      requires Forest(db.departments)
      ensures ok == ParentAllowed(db.departments, actor, parent)
    {
      var found := FindById(db.departments, actor, parent);
      return found.Some? && db.departments[parent].active;
    }

    method CreateDepartment(actor: Actor, id: DeptId, parent: DeptId, code: string, name: string, active: bool)
      returns (ok: bool)
      requires Inv(db) && id !in db.departments
      modifies this
      ensures ok <==>
        && (actor.scope.All? || actor.scope.Organization? || actor.scope.DepartmentAndChildren?)
        && CanSee(old(db).departments, actor, parent) && old(db).departments[parent].active
        && forall d :: d in old(db).departments && old(db).departments[d].org == actor.org
             ==> old(db).departments[d].code != code
      ensures ok == Apply(old(db), Create(actor, id, parent, code, name, active)).Some?
      ensures db == if ok then Apply(old(db), Create(actor, id, parent, code, name, active)).value else old(db)
      ensures Inv(db)
    {
      if actor.scope.Department? || actor.scope.SelfOnly? {
        return false;
      }
      ok := ValidateParent(actor, parent);
      if !ok || CodeTaken(db.departments, actor.org, code, None) {
        return false;
      }
      StepKeepsInv(db, Create(actor, id, parent, code, name, active));
      db := db.(departments := db.departments[id := Dept(actor.org, Some(parent), code, name, active)],
          logged := Logged(db, actor));
      return true;
    }

    method UpdateDepartment(actor: Actor, id: DeptId, changes: Changes) returns (ok: bool)
      requires Inv(db)
      modifies this
      ensures ok <==>
        && (changes.parent.Some? || changes.code.Some? || changes.name.Some? || changes.active.Some?)
        && CanSee(old(db).departments, actor, id) && old(db).departments[id].parent.Some?
        && (changes.parent.None? || changes.parent == old(db).departments[id].parent
            || (CanSee(old(db).departments, actor, changes.parent.value)
                && old(db).departments[changes.parent.value].active
                && !Descends(old(db).departments, id, changes.parent.value)))
        && (changes.code.Some? ==>
              forall d :: d in old(db).departments && d != id && old(db).departments[d].org == actor.org
                ==> old(db).departments[d].code != changes.code.value)
      ensures ok == Apply(old(db), Update(actor, id, changes)).Some?
      ensures db == if ok then Apply(old(db), Update(actor, id, changes)).value else old(db)
      ensures Inv(db)
    {
      var t := db.departments;
      if changes.parent.None? && changes.code.None? && changes.name.None? && changes.active.None? {
        return false;
      }
      var current := FindById(t, actor, id);
      if current.None? || t[id].parent.None? {
        return false;
      }
      if changes.parent.Some? && changes.parent != t[id].parent {
        if changes.parent.value == id {
          assert Up(t, id, 0) == Some(id);
          return false;
        }
        ok := ValidateParent(actor, changes.parent.value);
        if !ok {
          return false;
        }
        var cycle := ParentWouldCreateCycle(t, actor.org, id, changes.parent.value);
        if cycle {
          return false;
        }
      }
      if changes.code.Some? && CodeTaken(t, actor.org, changes.code.value, Some(id)) {
        return false;
      }
      StepKeepsInv(db, Update(actor, id, changes));
      db := db.(departments := t[id := Changed(t[id], changes)], logged := Logged(db, actor));
      return true;
    }

    /** The audit row is written in the same transaction, so a reference it makes also rolls the deletion back. */
    method DeleteDepartment(actor: Actor, id: DeptId) returns (ok: bool)
      requires Inv(db)
      modifies this
      ensures ok ==> id in old(db).departments && id !in db.departments
      ensures ok <==>
        && CanSee(old(db).departments, actor, id) && old(db).departments[id].parent.Some?
        && (forall d :: d in old(db).departments ==> old(db).departments[d].parent != Some(id))
        && (forall u :: u in old(db).users && old(db).users[u].department == Some(id) ==> old(db).users[u].deleted)
        && id !in old(db).logged
        && !(actor.user in old(db).users && old(db).users[actor.user].department == Some(id))
      ensures ok == Apply(old(db), Delete(actor, id)).Some?
      ensures db == if ok then Apply(old(db), Delete(actor, id)).value else old(db)
      ensures Inv(db)
    {
      var t := db.departments;
      var current := FindById(t, actor, id);
      if current.None? || t[id].parent.None? {
        return false;
      }
      if |ChildrenOf(t, id)| > 0 || |MembersOf(db, id)| > 0 || id in Logged(db, actor) {
        return false;
      }
      assert MayDelete(db, actor, id);
      DeletionOutcome(db, Delete(actor, id));
      StepKeepsInv(db, Delete(actor, id));
      db := db.(users := Released(db.users, id));
      db := db.(departments := t - {id}, logged := Logged(db, actor));
      return true;
    }
  }
}
