/**
 Data scopes: which scope may grant which, what an actor sees under a scope, and the scope of a session.
 */
module DataScopes {
  import opened Prelude
  import opened DepartmentForest
  import opened Departments

  /** DataScope::can_grant */
  predicate CanGrant(mine: Scope, requested: Scope) {
    match mine
    case All => true
    case Organization => !requested.All?
    case DepartmentAndChildren => requested.DepartmentAndChildren? || requested.Department? || requested.SelfOnly?
    case Department => requested.Department? || requested.SelfOnly?
    case SelfOnly => requested.SelfOnly?
  }

  /** can_grant is a total preorder, and no two scopes may grant each other. */
  lemma CanGrantIsTotalOrder(a: Scope, b: Scope, c: Scope)
    ensures CanGrant(a, a) && (CanGrant(a, b) || CanGrant(b, a))
    ensures CanGrant(a, b) && CanGrant(b, c) ==> CanGrant(a, c)
    ensures CanGrant(a, b) && CanGrant(b, a) ==> a == b
  {}

  /** The scoped finders of users: whether `actor` sees the row of `u`. */
  ghost predicate SeesUser(t: Table, users: map<UserId, User>, actor: Actor, u: UserId) {
    && u in users && !users[u].deleted
    && (actor.scope.All?
        || (users[u].org == actor.org
            && match actor.scope
               case Organization => true
               case SelfOnly => u == actor.user
               case Department => actor.department.Some? && users[u].department == actor.department
               case _ => users[u].department.Some? && InVisibleDepartments(t, actor, users[u].department.value)))
  }

  /** visible_departments of those finders: the actor's department and everything below it. */
  ghost predicate InVisibleDepartments(t: Table, actor: Actor, d: DeptId) {
    exists p :: p != [] && Last(p) == d
      && IsRow(t, Query(actor.org, if actor.department.Some? then {actor.department.value} else {}, true), p)
  }

  lemma VisibleIffDescends(t: Table, actor: Actor, d: DeptId)
    requires Closed(t)
    ensures InVisibleDepartments(t, actor, d)
       <==> actor.department.Some? && d in t && t[d].org == actor.org && Descends(t, actor.department.value, d)
  {
    var q := Query(actor.org, if actor.department.Some? then {actor.department.value} else {}, true);
    if p :| p != [] && Last(p) == d && IsRow(t, q, p) {
      RowIsChain(t, q, p);
      assert Up(t, d, |p| - 1) == actor.department;
    }
    if actor.department.Some? && d in t && t[d].org == actor.org && Descends(t, actor.department.value, d) {
      var k: nat :| Up(t, d, k) == actor.department;
      var p := ChainIsRow(t, q, d, k);
    }
  }

  /**
   Whom an actor sees, in terms of the department tree: never a deleted user, under no scope but `all` a user of
   another organization, and under the others itself, its department or the departments below that one.
   */
  lemma SeesUserIff(db: Db, actor: Actor, u: UserId)
    requires Inv(db) && (actor.department.Some? ==> actor.department.value in db.departments)
    ensures SeesUser(db.departments, db.users, actor, u)
       <==> && u in db.users && !db.users[u].deleted
            && (actor.scope.All? || db.users[u].org == actor.org)
            && (actor.scope.SelfOnly? ==> u == actor.user)
            && (actor.scope.Department? ==> actor.department.Some? && db.users[u].department == actor.department)
            && (actor.scope.DepartmentAndChildren? ==>
                  && actor.department.Some? && db.users[u].department.Some?
                  && Descends(db.departments, actor.department.value, db.users[u].department.value))
  {
    if u in db.users && db.users[u].department.Some? {
      VisibleIffDescends(db.departments, actor, db.users[u].department.value);
    }
  }

  ghost predicate SeesAllOf(t: Table, users: map<UserId, User>, wide: Actor, narrow: Actor) {
    forall u :: SeesUser(t, users, narrow, u) ==> SeesUser(t, users, wide, u)
  }

  /** The actor of a session is read from its own live row of a consistent database. */
  ghost predicate Signed(db: Db, actor: Actor) {
    && Inv(db) && actor.user in db.users && !db.users[actor.user].deleted
    && db.users[actor.user].org == actor.org && db.users[actor.user].department == actor.department
  }

  lemma OwnDepartmentVisible(db: Db, actor: Actor)
    requires Signed(db, actor) && actor.department.Some?
    ensures InVisibleDepartments(db.departments, actor, actor.department.value)
  {
    assert Last([actor.department.value]) == actor.department.value;
    assert IsRow(db.departments, Query(actor.org, {actor.department.value}, true), [actor.department.value]);
  }

  predicate OverDepartments(s: Scope) {
    s.Department? || s.DepartmentAndChildren?
  }

  /**
   Granting follows visibility: under a scope that may grant another, an actor sees everything it would see
   under the other. The one exception is an actor without a department, who sees itself under the self scope
   and nobody under the two department scopes.
   */
  lemma GrantRefinesVisibility(db: Db, actor: Actor, requested: Scope)
    requires Signed(db, actor) && CanGrant(actor.scope, requested)
    ensures SeesAllOf(db.departments, db.users, actor, actor.(scope := requested))
       <==> !(actor.department.None? && requested.SelfOnly? && OverDepartments(actor.scope))
  {
    var t, narrow := db.departments, actor.(scope := requested);
    assert SeesUser(t, db.users, actor.(scope := SelfOnly), actor.user);
    if actor.department.Some? {
      OwnDepartmentVisible(db, actor);
    } else {
      forall d | InVisibleDepartments(t, actor, d) ensures false {
        var p :| p != [] && Last(p) == d && IsRow(t, Query(actor.org, {}, true), p);
        RowIsChain(t, Query(actor.org, {}, true), p);
      }
    }
    if requested.DepartmentAndChildren? && actor.scope.DepartmentAndChildren? {
      assert narrow == actor;
    }
  }

  /** For departments the inclusion has no exception. */
  lemma GrantRefinesDepartments(t: Table, actor: Actor, requested: Scope, d: DeptId)
    requires Forest(t) && CanGrant(actor.scope, requested) && CanSee(t, actor.(scope := requested), d)
    ensures CanSee(t, actor, d)
  {
    var k: nat :| Sees(t, actor.(scope := requested), d, k);
    match actor.scope
    case All =>
      var depth := HasRoot(t, d, 0);
      assert Sees(t, actor, d, depth);
    case Organization =>
      var depth := HasRoot(t, d, 0);
      assert Sees(t, actor, d, depth);
    case DepartmentAndChildren =>
      assert Sees(t, actor, d, k);
    case Department =>
      assert Sees(t, actor, d, k);
    case SelfOnly =>
      assert Sees(t, actor, d, k);
  }

  // ---------------------------------------------------------------- no coarser order would do

  /** Two organizations; the actor is user 1 in department 1 of organization 1. */
  function SampleTable(): Table {
    map[1 := Dept(1, None, "a", "", true), 2 := Dept(1, Some(1), "b", "", true), 3 := Dept(2, None, "a", "", true)]
  }

  function SampleDb(): Db {
    Db(SampleTable(),
       map[1 := User(1, Some(1), false), 2 := User(1, Some(1), false), 3 := User(1, Some(2), false),
           4 := User(1, None, false), 5 := User(2, Some(3), false)], {})
  }

  lemma SampleIsForest()
    ensures Forest(SampleTable())
  {}

  lemma SampleIsConsistent(scope: Scope)
    ensures Signed(SampleDb(), Actor(1, 1, Some(1), scope))
  {
    SampleIsForest();
    var t := SampleTable();
    assert t[1].code == "a" && t[2].code == "b" && t[1].code != t[2].code;
    assert CodesUnique(t);
    assert ForeignKeys(SampleDb());
  }

  lemma SampleSubtree()
    ensures InVisibleDepartments(SampleDb().departments, Actor(1, 1, Some(1), DepartmentAndChildren), 2)
  {
    var t, q := SampleDb().departments, Query(1, {1}, true);
    assert [1, 2][..1] == [1];
    assert IsRow(t, q, [1]);
    assert IsRow(t, q, [1, 2]) && Last([1, 2]) == 2;
  }

  /**
   can_grant is exactly the inclusion of visibility: one scope may grant another if and only if, in every
   consistent database and for every actor with a department, it shows everything the other shows.
   */
  lemma CanGrantIffAlwaysWider(mine: Scope, requested: Scope)
    ensures CanGrant(mine, requested)
       <==> forall db: Db, actor: Actor :: Signed(db, actor) && actor.department.Some? && actor.scope == mine ==>
              SeesAllOf(db.departments, db.users, actor, actor.(scope := requested))
  {
    if CanGrant(mine, requested) {
      forall db: Db, actor: Actor | Signed(db, actor) && actor.department.Some? && actor.scope == mine
        ensures SeesAllOf(db.departments, db.users, actor, actor.(scope := requested))
      {
        GrantRefinesVisibility(db, actor, requested);
      }
    } else {
      var db, actor := SampleDb(), Actor(1, 1, Some(1), mine);
      SampleIsConsistent(mine);
      var narrow := actor.(scope := requested);
      var u := match requested case All => 5 case Organization => 4 case DepartmentAndChildren => 3 case _ => 2;
      assert SeesUser(db.departments, db.users, narrow, u) by {
        if requested.DepartmentAndChildren? { SampleSubtree(); }
      }
      assert !SeesUser(db.departments, db.users, actor, u);
    }
  }

  // ---------------------------------------------------------------- the scope of a session

  datatype RoleScope = RoleScope(code: string, scope: Scope)

  predicate Any(roles: seq<RoleScope>, scope: Scope) {
    exists r :: r in roles && r.scope == scope
  }

  /** The CASE of auth_context over the user's active roles. */
  function SessionScope(roles: seq<RoleScope>): Scope {
    if (exists r :: r in roles && r.code == "super_admin") || Any(roles, All) then All
    else if Any(roles, Organization) then Organization
    else if Any(roles, DepartmentAndChildren) then DepartmentAndChildren
    else if Any(roles, Department) then Department
    else SelfOnly
  }

  function Carried(r: RoleScope): Scope {
    if r.code == "super_admin" then All else r.scope
  }

  /** A session may grant exactly what some active role could grant, or the self scope: the least upper bound. */
  lemma SessionScopeIsGreatest(roles: seq<RoleScope>, s: Scope)
    ensures CanGrant(SessionScope(roles), s) <==> s.SelfOnly? || exists r :: r in roles && CanGrant(Carried(r), s)
  {}
}
