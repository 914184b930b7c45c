/**
 The protocol that keeps the last active super administrator.

 Deactivation, deletion and role replacement lock the super_admin role row, re-read a count and only
 then write; activation, creation and grants run without the lock. Transactions interleave statement
 by statement. A transaction reads the committed tables overlaid with its own writes (READ COMMITTED)
 and publishes its writes when it commits. Row locks on users and user_roles are not modelled, so the
 machine has every interleaving of the database and more.
 */
module SuperAdminGuard {
  import opened Prelude

  type UserId = nat
  /** roles.code is unique and never updated, so a role is identified by its code. */
  type RoleCode = string
  type Link = (UserId, RoleCode)
  type TxId = nat

  type Code = string

  const SUPER_ADMIN: RoleCode := "super_admin"

  const USER_WRITE: Code := "user:write"
  const USER_ROLES_WRITE: Code := "user:roles:write"
  const USER_DEACTIVATE: Code := "user:admin:deactivate"
  const SUPER_ADMIN_GRANT: Code := "user:super_admin:grant"
  const ROLE_WRITE: Code := "role:write"
  const ROLE_PERMISSIONS_WRITE: Code := "role:permissions:write"

  /** `roles` says whether a role is active, `codes` what permission codes it carries. */
  datatype Db = Db(
    users: map<UserId, Account>,
    links: set<Link>,
    roles: map<RoleCode, bool>,
    codes: map<RoleCode, set<Code>>)

  /** The rows a transaction has written and not yet committed. */
  datatype Delta = Delta(
    created: map<UserId, Status>,
    status: map<UserId, Status>,
    deleted: set<UserId>,
    removed: set<Link>,
    added: set<Link>)

  const NOTHING := Delta(map[], map[], {}, {}, {})

  predicate Alive(db: Db, u: UserId) {
    u in db.users && !db.users[u].deleted
  }

  /** What the guard query counts: present, active and linked to the super_admin role. */
  function SuperAdmins(db: Db): set<UserId> {
    set u | u in db.users && !db.users[u].deleted && db.users[u].status == Active && (u, SUPER_ADMIN) in db.links
  }

  predicate Carries(db: Db, r: RoleCode, c: Code) {
    r in db.codes && c in db.codes[r]
  }

  /** permission_codes_by_user: a living, active user has the codes of its active roles. */
  predicate Has(db: Db, u: UserId, c: Code) {
    && Alive(db, u) && db.users[u].status == Active
    && exists l :: l in db.links && l.0 == u && l.1 in db.roles && db.roles[l.1] && Carries(db, l.1, c)
  }

  /** validate_permission_grant_scope: nobody grants a code it does not have. */
  predicate HasAll(db: Db, u: UserId, codes: set<Code>) {
    forall c :: c in codes ==> Has(db, u, c)
  }

  function CodesOf(db: Db, r: RoleCode): set<Code> {
    if r in db.codes then db.codes[r] else {}
  }

  /**
   validate_role_grant_scope: existing active roles, whose codes the actor has, super_admin only with its
   own code.
   */
  predicate MayGrant(db: Db, actor: UserId, roles: set<RoleCode>) {
    && (forall r :: r in roles ==> r in db.roles && db.roles[r] && HasAll(db, actor, CodesOf(db, r)))
    && (SUPER_ADMIN in roles ==> Has(db, actor, SUPER_ADMIN_GRANT))
  }

  function RolesOf(db: Db, u: UserId): set<RoleCode> {
    set l | l in db.links && l.0 == u :: l.1
  }

  /** The committed tables as seen through a transaction's own writes. */
  function Apply(d: Delta, db: Db): Db {
    db.(users := map u | u in db.users.Keys + d.created.Keys ::
                   var row := if u in db.users then db.users[u] else Account(d.created[u], false);
                   Account(if u in d.status then d.status[u] else row.status, row.deleted || u in d.deleted),
        links := (db.links - d.removed) + d.added)
  }

  // ---------------------------------------------------------------- requests and their statements

  datatype Request =
    | DeleteUser(user: UserId)
    | DeleteMany(users: seq<UserId>)
    | UpdateUser(user: UserId, status: Option<Status>)
    | AssignRoles(user: UserId, roles: seq<RoleCode>)
    | AssignRolesMany(users: seq<UserId>, roles: seq<RoleCode>)
    | CreateUser(user: UserId, initial: Status, granted: Option<seq<RoleCode>>)

  datatype Op =
    | LockRoleRow
    | CheckLast(user: UserId)
    | SoftDelete(user: UserId)
    | WriteProfile(user: UserId, status: Option<Status>)
    | ReplaceRoles(user: UserId, roles: seq<RoleCode>)
    | InsertUser(user: UserId, initial: Status)

  predicate ActiveRoles(db: Db, roles: seq<RoleCode>) {
    Distinct(roles) && forall r :: r in roles ==> r in db.roles && db.roles[r]
  }

  /** The checks a service makes on its targets before it opens its transaction. */
  predicate Accepts(db: Db, next: UserId, req: Request) {
    match req
    case DeleteUser(u) => Alive(db, u)
    case DeleteMany(us) => us != [] && Distinct(us) && forall u :: u in us ==> Alive(db, u)
    case UpdateUser(u, _) => Alive(db, u)
    case AssignRoles(u, roles) => Alive(db, u) && ActiveRoles(db, roles)
    case AssignRolesMany(us, roles) =>
      us != [] && Distinct(us) && ActiveRoles(db, roles) && forall u :: u in us ==> Alive(db, u)
    case CreateUser(u, _, granted) => u == next && (granted.Some? ==> ActiveRoles(db, granted.value))
  }

  /** The permission a route asks of the acting user, and what its service checks about it. */
  predicate Entitled(db: Db, actor: UserId, req: Request) {
    match req
    case DeleteUser(u) => Has(db, actor, USER_DEACTIVATE) && actor != u
    case DeleteMany(us) => Has(db, actor, USER_DEACTIVATE) && actor !in us
    case UpdateUser(u, status) =>
      && Has(db, actor, USER_WRITE)
      && (status.Some? ==> Has(db, actor, USER_DEACTIVATE))
      && (status.Some? && status.value != Active ==> actor != u)
      && (status == Some(Active) ==> MayGrant(db, actor, RolesOf(db, u)))
    case AssignRoles(_, roles) => Has(db, actor, USER_ROLES_WRITE) && MayGrant(db, actor, SetOf(roles))
    case AssignRolesMany(us, roles) =>
      Has(db, actor, USER_ROLES_WRITE) && MayGrant(db, actor, SetOf(roles)) && actor !in us
    case CreateUser(_, status, granted) =>
      && Has(db, actor, USER_WRITE)
      && (status != Active ==> Has(db, actor, USER_DEACTIVATE))
      && (granted.Some? && granted.value != [] ==> Has(db, actor, USER_ROLES_WRITE))
      && (granted.Some? ==> MayGrant(db, actor, SetOf(granted.value)))
  }

  function DeletePlan(u: UserId): seq<Op> {
    [LockRoleRow, CheckLast(u), SoftDelete(u)]
  }

  /** `known` says whether id_by_code found the super_admin role present and active. */
  function AssignPlan(u: UserId, roles: seq<RoleCode>, known: bool): seq<Op> {
    if known && SUPER_ADMIN in roles then [ReplaceRoles(u, roles)]
    else [LockRoleRow, CheckLast(u), ReplaceRoles(u, roles)]
  }

  function DeleteManyPlan(us: seq<UserId>): seq<Op> {
    if us == [] then [] else DeletePlan(us[0]) + DeleteManyPlan(us[1..])
  }

  function AssignManyPlan(us: seq<UserId>, roles: seq<RoleCode>, known: bool): seq<Op> {
    if us == [] then [] else AssignPlan(us[0], roles, known) + AssignManyPlan(us[1..], roles, known)
  }

  function Plan(req: Request, known: bool): seq<Op> {
    match req
    case DeleteUser(u) => DeletePlan(u)
    case DeleteMany(us) => DeleteManyPlan(us)
    case UpdateUser(u, status) =>
      if status.Some? && status.value != Active then [LockRoleRow, CheckLast(u), WriteProfile(u, status)]
      else [WriteProfile(u, status)]
    case AssignRoles(u, roles) => AssignPlan(u, roles, known)
    case AssignRolesMany(us, roles) => AssignManyPlan(us, roles, known)
    case CreateUser(u, status, granted) =>
      if granted.Some? then [InsertUser(u, status), ReplaceRoles(u, granted.value)] else [InsertUser(u, status)]
  }

  // ---------------------------------------------------------------- the interleaving machine

  /**
   `mine` holds the id drawn from the users sequence for a user this transaction inserts; `cleared`
   remembers the user the last guard let through and whose write is still to come.
   */
  datatype Tx = Tx(todo: seq<Op>, delta: Delta, mine: set<UserId>, cleared: Option<UserId>)
  datatype State = State(db: Db, next: UserId, txs: map<TxId, Tx>, holder: Option<TxId>)

  datatype Event =
    | Begin(tx: TxId, actor: UserId, req: Request)
    | Exec(tx: TxId)
    | Commit(tx: TxId)
    | Abort(tx: TxId)
    | UpdateRole(actor: UserId, role: RoleCode, active: Option<bool>)
    | DeleteRole(actor: UserId, role: RoleCode)
    | CreateRole(actor: UserId, role: RoleCode, granted: set<Code>)
    | AssignPermissions(actor: UserId, role: RoleCode, granted: set<Code>)

  function LinksOf(u: UserId, links: set<Link>): set<Link> {
    set l | l in links && l.0 == u
  }

  function LinksTo(u: UserId, roles: seq<RoleCode>): set<Link> {
    set r | r in roles :: (u, r)
  }

  /** One write statement against the view `v`; None when the service turns it into an error. */
  function Write(op: Op, d: Delta, v: Db): Option<Delta> {
    match op
    case LockRoleRow => Some(d)
    case CheckLast(u) => if u in SuperAdmins(v) && |SuperAdmins(v)| <= 1 then None else Some(d)
    case SoftDelete(u) =>
      if !Alive(v, u) then None
      else Some(d.(deleted := d.deleted + {u},
                   removed := d.removed + LinksOf(u, v.links),
                   added := d.added - LinksOf(u, v.links)))
    case WriteProfile(u, status) =>
      if !Alive(v, u) then None
      else if status.None? then Some(d)
      else Some(d.(status := d.status[u := status.value]))
    case ReplaceRoles(u, roles) =>
      Some(d.(removed := d.removed + LinksOf(u, v.links),
              added := (d.added - LinksOf(u, v.links)) + LinksTo(u, roles)))
    case InsertUser(u, status) =>
      if u in v.users then None else Some(d.(created := d.created[u := status]))
  }

  function Finish(s: State, t: TxId): State {
    s.(txs := s.txs - {t}, holder := if s.holder == Some(t) then None else s.holder)
  }

  function ExecTx(s: State, t: TxId): Option<State>
    requires t in s.txs
  {
    var tx := s.txs[t];
    if tx.todo == [] || (tx.todo[0].LockRoleRow? && s.holder.Some? && s.holder != Some(t)) then None
    else
      var op := tx.todo[0];
      var written := Write(op, tx.delta, Apply(tx.delta, s.db));
      if written.None? then Some(Finish(s, t))
      else
        var cleared := if op.CheckLast? then Some(op.user) else None;
        Some(s.(txs := s.txs[t := tx.(todo := tx.todo[1..], delta := written.value, cleared := cleared)],
                holder := if op.LockRoleRow? then Some(t) else s.holder))
  }

  /** None when the event is not possible in `s`. */
  function Step(s: State, e: Event): Option<State> {
    match e
    case Begin(t, _, req) =>
      if t in s.txs || !Accepts(s.db, s.next, req) then None
      else
        var known := SUPER_ADMIN in s.db.roles && s.db.roles[SUPER_ADMIN];
        var mine := if req.CreateUser? then {req.user} else {};
        Some(s.(txs := s.txs[t := Tx(Plan(req, known), NOTHING, mine, None)],
                next := if req.CreateUser? then s.next + 1 else s.next))
    case Exec(t) => if t in s.txs then ExecTx(s, t) else None
    case Commit(t) =>
      if t in s.txs && s.txs[t].todo == [] then Some(Finish(s, t).(db := Apply(s.txs[t].delta, s.db))) else None
    case Abort(t) => if t in s.txs then Some(Finish(s, t)) else None
    case UpdateRole(_, r, active) =>
      if r !in s.db.roles || (r == SUPER_ADMIN && active == Some(false)) then None
      else Some(s.(db := s.db.(roles := if active.Some? then s.db.roles[r := active.value] else s.db.roles)))
    case DeleteRole(_, r) =>
      if r !in s.db.roles || r == SUPER_ADMIN || (exists u :: u in s.db.users && Alive(s.db, u) && (u, r) in s.db.links)
      then None
      else Some(s.(db := s.db.(roles := s.db.roles - {r}, codes := s.db.codes - {r},
                               links := set l | l in s.db.links && l.1 != r)))
    case CreateRole(_, r, granted) =>
      if r in s.db.roles then None
      else Some(s.(db := s.db.(roles := s.db.roles[r := true], codes := s.db.codes[r := granted])))
    case AssignPermissions(_, r, granted) =>
      if r !in s.db.roles || r == SUPER_ADMIN then None
      else Some(s.(db := s.db.(codes := s.db.codes[r := granted])))
  }

  function Run(s: State, es: seq<Event>): Option<State>
    decreases |es|
  {
    if es == [] then Some(s)
    else
      var s' := Step(s, es[0]);
      if s'.None? then None else Run(s'.value, es[1..])
  }

  /** May the acting user of an event do it, by the permissions it has in `db`? */
  predicate Authorized(db: Db, e: Event) {
    match e
    case Begin(_, actor, req) => Entitled(db, actor, req)
    case UpdateRole(actor, r, active) =>
      Has(db, actor, ROLE_WRITE) && (active == Some(true) ==> HasAll(db, actor, CodesOf(db, r)))
    case DeleteRole(actor, _) => Has(db, actor, ROLE_WRITE)
    case CreateRole(actor, _, granted) =>
      && Has(db, actor, ROLE_WRITE) && HasAll(db, actor, granted)
      && (granted != {} ==> Has(db, actor, ROLE_PERMISSIONS_WRITE))
    case AssignPermissions(actor, _, granted) => Has(db, actor, ROLE_PERMISSIONS_WRITE) && HasAll(db, actor, granted)
    case _ => true
  }

  /** A step whose request was authorized when it was made. */
  ghost function Move(s: State, e: Event): Option<State> {
    if Authorized(s.db, e) then Step(s, e) else None
  }

  /** A run of authorized steps. */
  ghost predicate Leads(s: State, es: seq<Event>, m: State) {
    Reaches(Move, s, es, m)
  }

  /** The seeded super_admin role is present, active and carries the management codes. */
  predicate Seeded(db: Db) {
    && SUPER_ADMIN in db.roles && db.roles[SUPER_ADMIN]
    && {USER_WRITE, USER_ROLES_WRITE, USER_DEACTIVATE, SUPER_ADMIN_GRANT} <= CodesOf(db, SUPER_ADMIN)
  }

  /** No open transactions, the seeded role, and ids that come from the sequence. */
  predicate Quiescent(s: State) {
    && s.txs == map[] && s.holder == None
    && Seeded(s.db)
    && (forall u :: u in s.db.users ==> u < s.next)
    && (forall l :: l in s.db.links ==> l.0 in s.db.users)
  }

  // ---------------------------------------------------------------- the inductive invariant

  /** Everything that makes a user a super administrator in `a` still does in `b`. */
  ghost predicate NoWorse(a: Db, b: Db) {
    forall u :: u in a.users ==>
      && u in b.users
      && (a.users[u].status == Active ==> b.users[u].status == Active)
      && (!a.users[u].deleted ==> !b.users[u].deleted)
      && ((u, SUPER_ADMIN) in a.links ==> (u, SUPER_ADMIN) in b.links)
  }

  ghost predicate Harmless(d: Delta, mine: set<UserId>) {
    && d.deleted == {}
    && (forall u :: u in d.status ==> d.status[u] == Active)
    && (forall u :: (u, SUPER_ADMIN) in d.removed && u !in mine ==> (u, SUPER_ADMIN) in d.added)
  }

  predicate Harms(op: Op, mine: set<UserId>) {
    match op
    case SoftDelete(_) => true
    case WriteProfile(_, status) => status.Some? && status.value != Active
    case ReplaceRoles(u, roles) => SUPER_ADMIN !in roles && u !in mine
    case _ => false
  }

  /** Every harmful write comes directly after the guard for the same user, under the lock. */
  predicate Disciplined(todo: seq<Op>, cleared: Option<UserId>, locked: bool, mine: set<UserId>) {
    if todo == [] then true
    else if todo[0].LockRoleRow? then mine == {} && Disciplined(todo[1..], None, true, mine)
    else if todo[0].CheckLast? then locked && Disciplined(todo[1..], Some(todo[0].user), true, mine)
    else
      && (Harms(todo[0], mine) ==> locked && cleared == Some(todo[0].user))
      && (todo[0].InsertUser? ==> todo[0].user in mine)
      && Disciplined(todo[1..], None, locked, mine)
  }

  ghost predicate Survivor(db: Db, cleared: Option<UserId>) {
    exists w :: w in SuperAdmins(db) && cleared != Some(w)
  }

  ghost predicate TxOk(s: State, t: TxId)
    requires t in s.txs
  {
    var tx := s.txs[t];
    && tx.delta.created.Keys <= tx.mine
    && (forall u :: u in tx.mine ==> u < s.next && u !in s.db.users)
    && Disciplined(tx.todo, tx.cleared, s.holder == Some(t), tx.mine)
    && (if s.holder == Some(t) then tx.mine == {} && Survivor(Apply(tx.delta, s.db), tx.cleared)
        else tx.cleared == None && Harmless(tx.delta, tx.mine))
  }

  ghost predicate Inv(s: State) {
    && SuperAdmins(s.db) != {}
    && SUPER_ADMIN in s.db.roles && s.db.roles[SUPER_ADMIN]
    && (forall u :: u in s.db.users ==> u < s.next)
    && (s.holder.Some? ==> s.holder.value in s.txs)
    && (forall t :: t in s.txs ==> TxOk(s, t))
    && (forall t1, t2 :: t1 in s.txs && t2 in s.txs && t1 != t2 ==> s.txs[t1].mine !! s.txs[t2].mine)
  }

  lemma NoWorseKeepsSuperAdmins(a: Db, b: Db)
    requires NoWorse(a, b)
    ensures SuperAdmins(a) <= SuperAdmins(b)
  {}

  lemma HarmlessIsNoWorse(d: Delta, mine: set<UserId>, db: Db)
    requires Harmless(d, mine) && mine !! db.users.Keys
    ensures NoWorse(db, Apply(d, db))
  {}

  lemma {:induction false} DisciplinedConcat(a: seq<Op>, b: seq<Op>, cleared: Option<UserId>, locked: bool,
      mine: set<UserId>)
    requires Disciplined(a, cleared, locked, mine)
    requires forall l: bool, c: Option<UserId> :: Disciplined(b, c, l, mine)
    ensures Disciplined(a + b, cleared, locked, mine)
  {
    if a == [] {
      assert a + b == b;
    } else {
      assert (a + b)[1..] == a[1..] + b;
      if a[0].LockRoleRow? {
        DisciplinedConcat(a[1..], b, None, true, mine);
      } else if a[0].CheckLast? {
        DisciplinedConcat(a[1..], b, Some(a[0].user), true, mine);
      } else {
        DisciplinedConcat(a[1..], b, None, locked, mine);
      }
    }
  }

  lemma GuardedDisciplined(op: Op, cleared: Option<UserId>, locked: bool)
    requires !op.LockRoleRow? && !op.CheckLast? && !op.InsertUser?
    ensures Disciplined([LockRoleRow, CheckLast(op.user), op], cleared, locked, {})
  {
    var plan := [LockRoleRow, CheckLast(op.user), op];
    assert plan[1..][1..] == [op];
    assert Disciplined(plan[1..][1..], Some(op.user), true, {});
    assert Disciplined(plan[1..], None, true, {});
  }

  lemma {:induction false} DeleteManyDisciplined(us: seq<UserId>)
    ensures forall l: bool, c: Option<UserId> :: Disciplined(DeleteManyPlan(us), c, l, {})
  {
    if us != [] {
      DeleteManyDisciplined(us[1..]);
      forall l: bool, c: Option<UserId> ensures Disciplined(DeleteManyPlan(us), c, l, {}) {
        GuardedDisciplined(SoftDelete(us[0]), c, l);
        DisciplinedConcat(DeletePlan(us[0]), DeleteManyPlan(us[1..]), c, l, {});
      }
    }
  }

  lemma {:induction false} AssignManyDisciplined(us: seq<UserId>, roles: seq<RoleCode>, known: bool)
    ensures forall l: bool, c: Option<UserId> :: Disciplined(AssignManyPlan(us, roles, known), c, l, {})
  {
    if us != [] {
      AssignManyDisciplined(us[1..], roles, known);
      forall l: bool, c: Option<UserId> ensures Disciplined(AssignManyPlan(us, roles, known), c, l, {}) {
        GuardedDisciplined(ReplaceRoles(us[0], roles), c, l);
        DisciplinedConcat(AssignPlan(us[0], roles, known), AssignManyPlan(us[1..], roles, known), c, l, {});
      }
    }
  }

  /** Every service's statement sequence guards its harmful writes. */
  lemma PlanDisciplined(req: Request, known: bool)
    ensures Disciplined(Plan(req, known), None, false, if req.CreateUser? then {req.user} else {})
  {
    match req
    case DeleteUser(u) => GuardedDisciplined(SoftDelete(u), None, false);
    case DeleteMany(us) => DeleteManyDisciplined(us);
    case UpdateUser(u, status) => GuardedDisciplined(WriteProfile(u, status), None, false);
    case AssignRoles(u, roles) => GuardedDisciplined(ReplaceRoles(u, roles), None, false);
    case AssignRolesMany(us, roles) => AssignManyDisciplined(us, roles, known);
    case CreateUser(u, status, granted) =>
      if granted.Some? {
        assert Plan(req, known)[1..] == [ReplaceRoles(u, granted.value)];
      }
  }

  /** A write leaves every super administrator of the view in place, except the user it targets when it harms. */
  lemma WriteHarmsOnlyItsTarget(op: Op, d: Delta, mine: set<UserId>, db: Db)
    requires !op.LockRoleRow? && !op.CheckLast?
    requires Write(op, d, Apply(d, db)).Some?
    requires d.created.Keys <= mine && mine !! db.users.Keys
    requires op.InsertUser? ==> op.user in mine
    ensures var v, v' := Apply(d, db), Apply(Write(op, d, Apply(d, db)).value, db);
            forall w :: w in SuperAdmins(v) && (w != op.user || !Harms(op, {})) ==> w in SuperAdmins(v')
  {}

  /** Unlocked, unguarded writes stay harmless. */
  lemma WriteStaysHarmless(op: Op, d: Delta, mine: set<UserId>, v: Db)
    requires Harmless(d, mine) && !Harms(op, mine) && Write(op, d, v).Some?
    ensures Harmless(Write(op, d, v).value, mine)
  {}

  // ---------------------------------------------------------------- one step keeps the invariant

  /** The other transactions of `s` stay fine when the committed tables only improve. */
  lemma OthersStayOk(s: State, s': State, t: TxId)
    requires t in s'.txs && t in s.txs && s'.txs[t] == s.txs[t] && TxOk(s, t)
    requires NoWorse(s.db, s'.db) && s.next <= s'.next
    requires s.txs[t].mine !! s'.db.users.Keys
    requires (s.holder == Some(t)) == (s'.holder == Some(t))
    ensures TxOk(s', t)
  {}

  lemma BeginKeepsInv(s: State, t: TxId, actor: UserId, req: Request)
    requires Inv(s) && Step(s, Begin(t, actor, req)).Some?
    ensures Inv(Step(s, Begin(t, actor, req)).value)
  {
    var s' := Step(s, Begin(t, actor, req)).value;
    var known := SUPER_ADMIN in s.db.roles && s.db.roles[SUPER_ADMIN];
    PlanDisciplined(req, known);
    forall x | x in s'.txs ensures TxOk(s', x) {
      if x != t {
        OthersStayOk(s, s', x);
      }
    }
    forall t1, t2 | t1 in s'.txs && t2 in s'.txs && t1 != t2 ensures s'.txs[t1].mine !! s'.txs[t2].mine {
      if t1 == t { assert TxOk(s, t2); } else if t2 == t { assert TxOk(s, t1); }
    }
  }

  lemma FinishKeepsInv(s: State, t: TxId)
    requires Inv(s) && t in s.txs
    ensures Inv(Finish(s, t))
  {
    var s' := Finish(s, t);
    forall x | x in s'.txs ensures TxOk(s', x) {
      OthersStayOk(s, s', x);
    }
  }

  /** The guard passes only if some other super administrator survives. */
  lemma GuardLeavesSurvivor(v: Db, u: UserId)
    requires SuperAdmins(v) != {}
    requires !(u in SuperAdmins(v) && |SuperAdmins(v)| <= 1)
    ensures Survivor(v, Some(u))
  {
    if u in SuperAdmins(v) {
      AtLeastTwo(SuperAdmins(v), u);
    } else {
      var w :| w in SuperAdmins(v);
    }
  }

  lemma ExecutedTxOk(s: State, t: TxId)
    requires Inv(s) && t in s.txs && ExecTx(s, t).Some?
    requires t in ExecTx(s, t).value.txs
    ensures TxOk(ExecTx(s, t).value, t)
  {
    var s' := ExecTx(s, t).value;
    var tx := s.txs[t];
    assert TxOk(s, t);
    var op := tx.todo[0];
    var v := Apply(tx.delta, s.db);
    if s.holder != Some(t) {
      HarmlessIsNoWorse(tx.delta, tx.mine, s.db);
      NoWorseKeepsSuperAdmins(s.db, v);
      var w :| w in SuperAdmins(s.db);
      assert w in SuperAdmins(v);
    }
    if op.CheckLast? {
      GuardLeavesSurvivor(v, op.user);
    } else if !op.LockRoleRow? {
      if s.holder == Some(t) {
        WriteHarmsOnlyItsTarget(op, tx.delta, tx.mine, s.db);
        var w :| w in SuperAdmins(v) && tx.cleared != Some(w);
        assert w in SuperAdmins(Apply(s'.txs[t].delta, s'.db));
      } else {
        WriteStaysHarmless(op, tx.delta, tx.mine, v);
      }
    }
  }

  lemma ExecKeepsInv(s: State, t: TxId)
    requires Inv(s) && t in s.txs && ExecTx(s, t).Some?
    ensures Inv(ExecTx(s, t).value)
  {
    var s' := ExecTx(s, t).value;
    if t !in s'.txs {
      FinishKeepsInv(s, t);
    } else {
      ExecutedTxOk(s, t);
      ExecFrame(s, t);
      forall x | x in s'.txs && x != t ensures TxOk(s', x) {
        assert TxOk(s, x) && s'.txs[x] == s.txs[x];
        OthersStayOk(s, s', x);
      }
    }
  }

  /** Executing a statement touches neither the committed tables nor the other transactions. */
  lemma ExecFrame(s: State, t: TxId)
    requires t in s.txs && ExecTx(s, t).Some? && t in ExecTx(s, t).value.txs
    ensures var s' := ExecTx(s, t).value;
            && s'.db == s.db && s'.next == s.next && s'.txs.Keys == s.txs.Keys && s'.txs[t].mine == s.txs[t].mine
            && (forall x :: x in s.txs && x != t ==> s'.txs[x] == s.txs[x])
            && (s'.holder == s.holder || (s.holder.None? && s'.holder == Some(t)))
  {}

  lemma CommitKeepsInv(s: State, t: TxId)
    requires Inv(s) && Step(s, Commit(t)).Some?
    ensures Inv(Step(s, Commit(t)).value)
  {
    var s' := Step(s, Commit(t)).value;
    var tx := s.txs[t];
    assert TxOk(s, t);
    if s.holder == Some(t) {
      var w :| w in SuperAdmins(Apply(tx.delta, s.db)) && tx.cleared != Some(w);
      assert s'.holder == None;
    } else {
      HarmlessIsNoWorse(tx.delta, tx.mine, s.db);
      NoWorseKeepsSuperAdmins(s.db, s'.db);
    }
    forall x | x in s'.txs ensures TxOk(s', x) {
      assert TxOk(s, x);
      if s.holder != Some(t) {
        OthersStayOk(s, s', x);
      }
    }
  }

  /** Role maintenance neither removes the super_admin row nor touches its links. */
  lemma RoleEventKeepsInv(s: State, e: Event)
    requires e.UpdateRole? || e.DeleteRole? || e.CreateRole? || e.AssignPermissions?
    requires Inv(s) && Step(s, e).Some?
    ensures Inv(Step(s, e).value)
  {
    var s' := Step(s, e).value;
    NoWorseKeepsSuperAdmins(s.db, s'.db);
    forall x | x in s'.txs ensures TxOk(s', x) {
      OthersStayOk(s, s', x);
    }
  }

  lemma StepKeepsInv(s: State, e: Event)
    requires Inv(s) && Step(s, e).Some?
    ensures Inv(Step(s, e).value)
  {
    match e
    case Begin(t, actor, req) => BeginKeepsInv(s, t, actor, req);
    case Exec(t) => ExecKeepsInv(s, t);
    case Commit(t) => CommitKeepsInv(s, t);
    case Abort(t) => FinishKeepsInv(s, t);
    case _ => RoleEventKeepsInv(s, e);
  }

  lemma {:induction false} RunKeepsInv(s: State, es: seq<Event>)
    requires Inv(s) && Run(s, es).Some?
    ensures Inv(Run(s, es).value)
    decreases |es|
  {
    if es != [] {
      StepKeepsInv(s, es[0]);
      RunKeepsInv(Step(s, es[0]).value, es[1..]);
    }
  }

  // ---------------------------------------------------------------- main results

  /** In no authorized run from `s` is a committed state with a super administrator followed by one without. */
  ghost predicate NeverLosesLast(s: State) {
    forall es: seq<Event>, m: State, more: seq<Event>, m': State ::
      Leads(s, es, m) && SuperAdmins(m.db) != {} && Leads(m, more, m') ==> SuperAdmins(m'.db) != {}
  }

  /**
   Every interleaving from a quiescent state with a super administrator keeps one, and keeps the role itself,
   whoever acts and whatever the actors' permissions were when they were read.
   */
  lemma EveryRunKeepsASuperAdmin(s: State, es: seq<Event>)
    requires Quiescent(s) && SuperAdmins(s.db) != {} && Run(s, es).Some?
    ensures SuperAdmins(Run(s, es).value.db) != {}
    ensures SUPER_ADMIN in Run(s, es).value.db.roles && Run(s, es).value.db.roles[SUPER_ADMIN]
  {
    RunKeepsInv(s, es);
  }

  lemma {:induction false} LeadsIsRun(s: State, es: seq<Event>, m: State)
    requires Leads(s, es, m)
    ensures Run(s, es) == Some(m)
    decreases |es|
  {
    if es != [] { LeadsIsRun(Step(s, es[0]).value, es[1..], m); }
  }

  lemma LeadsCons(s: State, e: Event, next: State, rest: seq<Event>, m: State)
    requires Authorized(s.db, e) && Step(s, e) == Some(next) && Leads(next, rest, m)
    ensures Leads(s, [e] + rest, m)
  {
    ReachesOne(Move, s, e, next);
    ReachesAppend(Move, s, [e], next, rest, m);
  }

  lemma LeadsAppend(s: State, es: seq<Event>, m: State, more: seq<Event>, m': State)
    requires Leads(s, es, m) && Leads(m, more, m')
    ensures Leads(s, es + more, m')
  {
    ReachesAppend(Move, s, es, m, more, m');
  }

  lemma LeadsOne(s: State, es: seq<Event>, e: Event, m: State, m': State)
    requires Leads(s, es, m) && Authorized(m.db, e) && Step(m, e) == Some(m')
    ensures Leads(s, es + [e], m')
  {
    ReachesOne(Move, m, e, m');
    ReachesAppend(Move, s, es, m, [e], m');
  }

  // ---------------------------------------------------------------- without a super administrator at the start

  /** A user who may grant super_admin: it has every code of the role, the code for granting it among them. */
  predicate Able(db: Db, actor: UserId) {
    SUPER_ADMIN in db.codes && SUPER_ADMIN_GRANT in db.codes[SUPER_ADMIN] && HasAll(db, actor, CodesOf(db, SUPER_ADMIN))
  }

  /** An able user stays able while its own rows and the roles stay. */
  lemma StaysAble(db: Db, db': Db, actor: UserId)
    requires Able(db, actor) && db'.roles == db.roles && db'.codes == db.codes
    requires actor in db'.users && actor in db.users ==> db'.users[actor] == db.users[actor]
    requires actor in db.users ==> actor in db'.users
    requires forall l :: l in db.links && l.0 == actor ==> l in db'.links
    ensures Able(db', actor) && Alive(db', actor)
  {
    assert Has(db, actor, SUPER_ADMIN_GRANT);
    forall c | c in CodesOf(db', SUPER_ADMIN) ensures Has(db', actor, c) {
      assert Has(db, actor, c);
      var l :| l in db.links && l.0 == actor && l.1 in db.roles && db.roles[l.1] && Carries(db, l.1, c);
      assert l in db'.links && Carries(db', l.1, c);
    }
  }

  function CreateTx(u: UserId, todo: seq<Op>, d: Delta): map<TxId, Tx> {
    map[0 := Tx(todo, d, {u}, None)]
  }

  lemma GrantToFresh(u: UserId, d: Delta, v: Db)
    requires LinksOf(u, v.links) == {} && d.removed == {} && d.added == {}
    ensures Write(ReplaceRoles(u, [SUPER_ADMIN]), d, v) == Some(d.(added := {(u, SUPER_ADMIN)}))
  {
    assert LinksTo(u, [SUPER_ADMIN]) == {(u, SUPER_ADMIN)};
    assert (d.added - LinksOf(u, v.links)) + LinksTo(u, [SUPER_ADMIN]) == {(u, SUPER_ADMIN)};
    assert d.removed + LinksOf(u, v.links) == d.removed;
  }

  lemma AbleMayCreate(s: State, actor: UserId)
    requires Quiescent(s) && Able(s.db, actor)
    ensures var req := CreateUser(s.next, Inactive, Some([SUPER_ADMIN]));
            Accepts(s.db, s.next, req) && Entitled(s.db, actor, req)
  {
    assert SetOf([SUPER_ADMIN]) == {SUPER_ADMIN};
  }

  /** The statements of a transaction that inserts an inactive user and grants it the role. */
  lemma CreateStatements(s: State, actor: UserId) returns (es: seq<Event>, m: State)
    requires Quiescent(s) && Able(s.db, actor)
    ensures Leads(s, es, m)
    ensures m == s.(next := s.next + 1, txs := CreateTx(s.next, [],
      NOTHING.(created := map[s.next := Inactive], added := {(s.next, SUPER_ADMIN)})))
  {
    var u := s.next;
    var begin := Begin(0, actor, CreateUser(u, Inactive, Some([SUPER_ADMIN])));
    var grant := ReplaceRoles(u, [SUPER_ADMIN]);
    var m1 := s.(next := u + 1, txs := CreateTx(u, [InsertUser(u, Inactive), grant], NOTHING));
    AbleMayCreate(s, actor);
    assert Step(s, begin) == Some(m1);
    LeadsOne(s, [], begin, s, m1);
    var m2 := m1.(txs := CreateTx(u, [grant], NOTHING.(created := map[u := Inactive])));
    InsertStatement(m1, u, grant, m2);
    LeadsOne(s, [] + [begin], Exec(0), m1, m2);
    m := m2.(txs := CreateTx(u, [], NOTHING.(created := map[u := Inactive], added := {(u, SUPER_ADMIN)})));
    GrantStatement(m2, u, m);
    LeadsOne(s, [] + [begin] + [Exec(0)], Exec(0), m2, m);
    es := [] + [begin] + [Exec(0)] + [Exec(0)];
  }

  lemma InsertStatement(s: State, u: UserId, grant: Op, m: State)
    requires s.txs == CreateTx(u, [InsertUser(u, Inactive), grant], NOTHING) && u !in s.db.users
    requires m == s.(txs := CreateTx(u, [grant], NOTHING.(created := map[u := Inactive])))
    ensures Step(s, Exec(0)) == Some(m)
  {
    assert s.txs[0].todo[1..] == [grant];
    assert NOTHING.created[u := Inactive] == map[u := Inactive];
    assert s.txs[0 := m.txs[0]] == m.txs;
  }

  lemma GrantStatement(s: State, u: UserId, m: State)
    requires s.txs == CreateTx(u, [ReplaceRoles(u, [SUPER_ADMIN])], NOTHING.(created := map[u := Inactive]))
    requires forall l :: l in s.db.links ==> l.0 != u
    requires m == s.(txs := CreateTx(u, [],
      NOTHING.(created := map[u := Inactive], added := {(u, SUPER_ADMIN)})))
    ensures Step(s, Exec(0)) == Some(m)
  {
    assert LinksOf(u, Apply(s.txs[0].delta, s.db).links) == {};
    GrantToFresh(u, s.txs[0].delta, Apply(s.txs[0].delta, s.db));
    assert s.txs[0].todo[1..] == [];
    assert s.txs[0 := m.txs[0]] == m.txs;
  }

  /** An able actor can create a user that is inactive and holds the role. */
  lemma CreateInactiveHolder(s: State, actor: UserId) returns (es: seq<Event>, m: State)
    requires Quiescent(s) && Able(s.db, actor)
    ensures Leads(s, es, m) && Quiescent(m) && Able(m.db, actor) && actor != s.next
    ensures Alive(m.db, s.next) && m.db.users[s.next].status == Inactive && RolesOf(m.db, s.next) == {SUPER_ADMIN}
    ensures SuperAdmins(m.db) == SuperAdmins(s.db)
  {
    var es0, m0 := CreateStatements(s, actor);
    m := CreationCommits(s, m0);
    LeadsOne(s, es0, Commit(0), m0, m);
    es := es0 + [Commit(0)];
    assert (s.next, SUPER_ADMIN) in m.db.links;
    assert Has(s.db, actor, SUPER_ADMIN_GRANT);
    StaysAble(s.db, m.db, actor);
    assert forall w :: w in SuperAdmins(m.db) <==> w in SuperAdmins(s.db);
  }

  lemma CreationCommits(s: State, m0: State) returns (m: State)
    requires Quiescent(s)
    requires m0 == s.(next := s.next + 1, txs := CreateTx(s.next, [],
      NOTHING.(created := map[s.next := Inactive], added := {(s.next, SUPER_ADMIN)})))
    ensures Step(m0, Commit(0)) == Some(m)
    ensures m == s.(next := s.next + 1, db := m.db)
    ensures m.db == s.db.(users := s.db.users[s.next := Account(Inactive, false)],
                          links := s.db.links + {(s.next, SUPER_ADMIN)})
  {
    m := Step(m0, Commit(0)).value;
    assert m.db.users == s.db.users[s.next := Account(Inactive, false)];
    assert m.db.links == s.db.links + {(s.next, SUPER_ADMIN)};
    assert m.txs == s.txs;
  }

  /** With no super administrator the guard lets the deletion of an inactive one through and holds the lock. */
  lemma GuardPassesForInactive(s: State, actor: UserId, u: UserId) returns (es: seq<Event>, m: State)
    requires Quiescent(s) && Able(s.db, actor) && Alive(s.db, u) && actor != u && u !in SuperAdmins(s.db)
    ensures Leads(s, es, m)
    ensures m == s.(txs := map[0 := Tx([SoftDelete(u)], NOTHING, {}, Some(u))], holder := Some(0))
  {
    var begin := Begin(0, actor, DeleteUser(u));
    assert Has(s.db, actor, USER_DEACTIVATE);
    var m1 := Step(s, begin).value;
    LeadsOne(s, [], begin, s, m1);
    es := [] + [begin];
    var m2 := Step(m1, Exec(0)).value;
    LeadsOne(s, es, Exec(0), m1, m2);
    es := es + [Exec(0)];
    assert m2.txs[0].todo == [CheckLast(u), SoftDelete(u)];
    assert SuperAdmins(Apply(NOTHING, s.db)) == SuperAdmins(s.db);
    m := Step(m2, Exec(0)).value;
    LeadsOne(s, es, Exec(0), m2, m);
    es := es + [Exec(0)];
    assert m.txs[0].todo == [SoftDelete(u)];
    assert m.txs == map[0 := Tx([SoftDelete(u)], NOTHING, {}, Some(u))];
  }

  lemma AbleMayActivate(db: Db, actor: UserId, u: UserId)
    requires Able(db, actor) && {USER_WRITE, USER_DEACTIVATE} <= CodesOf(db, SUPER_ADMIN)
    requires Alive(db, u) && RolesOf(db, u) == {SUPER_ADMIN} && SUPER_ADMIN in db.roles && db.roles[SUPER_ADMIN]
    ensures Entitled(db, actor, UpdateUser(u, Some(Active)))
  {}

  /** While transaction 0 waits, another transaction activates the same user without any lock. */
  lemma ActivateMeanwhile(s: State, actor: UserId, u: UserId) returns (es: seq<Event>, m: State)
    requires s.txs.Keys == {0} && Alive(s.db, u) && Entitled(s.db, actor, UpdateUser(u, Some(Active)))
    ensures Leads(s, es, m)
    ensures m.txs == s.txs && m.holder == (if s.holder == Some(1) then None else s.holder) && m.db.links == s.db.links
    ensures m.db.users == s.db.users[u := Account(Active, false)]
  {
    var begin := Begin(1, actor, UpdateUser(u, Some(Active)));
    var m1 := s.(txs := s.txs[1 := Tx([WriteProfile(u, Some(Active))], NOTHING, {}, None)]);
    LeadsOne(s, [], begin, s, m1);
    var m2 := s.(txs := s.txs[1 := Tx([], NOTHING.(status := map[u := Active]), {}, None)]);
    ProfileStatement(m1, u, m2);
    LeadsOne(s, [] + [begin], Exec(1), m1, m2);
    m := ActivationCommits(s, u, m2);
    es := [] + [begin] + [Exec(1)];
    LeadsOne(s, es, Commit(1), m2, m);
    es := es + [Commit(1)];
  }

  lemma ProfileStatement(s: State, u: UserId, m: State)
    requires 1 in s.txs && s.txs[1] == Tx([WriteProfile(u, Some(Active))], NOTHING, {}, None) && Alive(s.db, u)
    requires m == s.(txs := s.txs[1 := Tx([], NOTHING.(status := map[u := Active]), {}, None)])
    ensures Step(s, Exec(1)) == Some(m)
  {
    assert s.txs[1].todo[1..] == [];
    assert NOTHING.status[u := Active] == map[u := Active];
    assert Alive(Apply(NOTHING, s.db), u);
  }

  lemma ActivationCommits(s: State, u: UserId, m2: State) returns (m: State)
    requires s.txs.Keys == {0} && Alive(s.db, u)
    requires m2 == s.(txs := s.txs[1 := Tx([], NOTHING.(status := map[u := Active]), {}, None)])
    ensures Step(m2, Commit(1)) == Some(m)
    ensures m.txs == s.txs && m.holder == (if s.holder == Some(1) then None else s.holder) && m.db.links == s.db.links
    ensures m.db.users == s.db.users[u := Account(Active, false)]
  {
    m := Step(m2, Commit(1)).value;
    assert m.txs == s.txs;
    assert m.db.users == s.db.users[u := Account(Active, false)];
    assert m.db.links == s.db.links;
  }

  lemma DeleteCommits(s: State, u: UserId) returns (es: seq<Event>, m: State)
    requires s.txs == map[0 := Tx([SoftDelete(u)], NOTHING, {}, Some(u))] && Alive(s.db, u)
    ensures Leads(s, es, m)
    ensures SuperAdmins(m.db) == SuperAdmins(s.db) - {u}
  {
    var m1 := Step(s, Exec(0)).value;
    LeadsOne(s, [], Exec(0), s, m1);
    es := [] + [Exec(0)];
    assert Apply(NOTHING, s.db).links == s.db.links;
    assert m1.txs[0].delta == NOTHING.(deleted := {u}, removed := LinksOf(u, s.db.links));
    m := Step(m1, Commit(0)).value;
    LeadsOne(s, es, Commit(0), m1, m);
    es := es + [Commit(0)];
    assert forall w :: w in s.db.users && w != u ==> m.db.users[w] == s.db.users[w];
    assert forall w :: w != u ==> ((w, SUPER_ADMIN) in m.db.links <==> (w, SUPER_ADMIN) in s.db.links);
  }

  lemma LosesLast(s: State, es: seq<Event>, m: State, more: seq<Event>, m': State)
    requires Leads(s, es, m) && SuperAdmins(m.db) != {} && Leads(m, more, m') && SuperAdmins(m'.db) == {}
    ensures !NeverLosesLast(s)
  {}

  /**
   Without a super administrator but with a user who may grant the role, activation can race deletion and
   leave none.
   */
  lemma RaceWithoutSuperAdmin(s: State, actor: UserId)
    requires Quiescent(s) && SuperAdmins(s.db) == {} && Able(s.db, actor)
    ensures !NeverLosesLast(s)
  {
    var u := s.next;
    var es1, m1 := CreateInactiveHolder(s, actor);
    var es2, m2 := GuardPassesForInactive(m1, actor, u);
    AbleMayActivate(m2.db, actor, u);
    var es3, m3 := ActivateMeanwhile(m2, actor, u);
    assert SUPER_ADMIN in RolesOf(m1.db, u);
    assert u in SuperAdmins(m3.db);
    assert forall w :: w in SuperAdmins(m3.db) && w != u ==> w in SuperAdmins(m1.db);
    var es4, m4 := DeleteCommits(m3, u);
    LeadsAppend(s, es1, m1, es2, m2);
    LeadsAppend(s, es1 + es2, m2, es3, m3);
    assert SuperAdmins(m4.db) == {};
    LosesLast(s, es1 + es2 + es3, m3, es4, m4);
  }

  // ---------------------------------------------------------------- a code that nobody has

  /** What is being withheld: the roles that carry a code, or the super_admin role itself. */
  datatype Mark = Carrying(code: Code) | TheRole

  predicate Tainted(db: Db, mark: Mark, r: RoleCode) {
    match mark
    case Carrying(x) => r in db.roles && db.roles[r] && Carries(db, r, x)
    case TheRole => r == SUPER_ADMIN
  }

  ghost predicate Barred(db: Db, mark: Mark, u: UserId) {
    exists r :: (u, r) in db.links && Tainted(db, mark, r)
  }

  /** No living, active user has a tainted role. */
  ghost predicate NobodyHas(db: Db, mark: Mark) {
    forall u :: Barred(db, mark, u) && Alive(db, u) ==> db.users[u].status != Active
  }

  lemma NobodyHasMeans(db: Db, x: Code)
    ensures NobodyHas(db, Carrying(x)) <==> forall u :: !Has(db, u, x)
  {
    var mark := Carrying(x);
    forall u ensures Has(db, u, x) <==> Barred(db, mark, u) && Alive(db, u) && db.users[u].status == Active {
      if Has(db, u, x) {
        var l :| l in db.links && l.0 == u && l.1 in db.roles && db.roles[l.1] && Carries(db, l.1, x);
        assert (u, l.1) == l;
      }
    }
  }

  /** Nobody who could hand out a tainted role is there to do so. */
  ghost predicate Guarded(db: Db, mark: Mark) {
    NobodyHas(db, mark) && (mark.TheRole? ==> forall a :: !Able(db, a))
  }

  /** No pending write makes somebody active that has, or gives somebody, a role with the code. */
  ghost predicate Clean(db: Db, mark: Mark, tx: Tx) {
    && (forall i :: 0 <= i < |tx.todo| ==> CleanOp(db, mark, tx.mine, tx.todo[i]))
    && (forall l :: l in tx.delta.added ==> !Tainted(db, mark, l.1) && (l.0 in db.users || l.0 in tx.mine))
    && (forall u :: u in tx.delta.status && tx.delta.status[u] == Active ==> !Barred(db, mark, u))
    && tx.delta.created.Keys <= tx.mine
    && (forall u :: u in tx.mine ==> u in tx.delta.created || exists i :: 0 <= i < |tx.todo| && Inserts(tx.todo[i], u))
  }

  predicate Inserts(op: Op, u: UserId) {
    op.InsertUser? && op.user == u
  }

  ghost predicate CleanOp(db: Db, mark: Mark, mine: set<UserId>, op: Op) {
    && (op.ReplaceRoles? ==> op.user in db.users || op.user in mine)
    && (op.ReplaceRoles? ==> forall r :: r in op.roles ==> !Tainted(db, mark, r))
    && (op.WriteProfile? && op.status == Some(Active) ==> !Barred(db, mark, op.user))
    && (op.InsertUser? ==> op.user in mine)
  }

  ghost predicate Withheld(s: State, mark: Mark) {
    && Tainted(s.db, mark, SUPER_ADMIN) && NobodyHas(s.db, mark) && Seeded(s.db)
    && (s.holder.Some? ==> s.holder.value in s.txs)
    && (forall l :: l in s.db.links ==> l.0 in s.db.users)
    && (forall u :: u in s.db.users ==> u < s.next)
    && (forall t :: t in s.txs ==> Clean(s.db, mark, s.txs[t]) && Fresh(s, s.txs[t].mine))
    && (forall t1, t2 :: t1 in s.txs && t2 in s.txs && t1 != t2 ==> s.txs[t1].mine !! s.txs[t2].mine)
  }

  ghost predicate Fresh(s: State, mine: set<UserId>) {
    forall u :: u in mine ==> u < s.next && u !in s.db.users
  }

  /** Tables in which no role and no user gained the code. */
  ghost predicate NoMore(a: Db, b: Db, mark: Mark) {
    && a.users.Keys <= b.users.Keys
    && (forall r :: Tainted(b, mark, r) ==> Tainted(a, mark, r))
    && (forall u :: Barred(b, mark, u) ==> Barred(a, mark, u))
  }

  lemma CleanStays(a: Db, b: Db, mark: Mark, tx: Tx)
    requires Clean(a, mark, tx) && NoMore(a, b, mark)
    ensures Clean(b, mark, tx)
  {
    forall i | 0 <= i < |tx.todo| ensures CleanOp(b, mark, tx.mine, tx.todo[i]) {
      assert CleanOp(a, mark, tx.mine, tx.todo[i]);
    }
  }

  lemma GrantableIsUntainted(db: Db, mark: Mark, actor: UserId, roles: set<RoleCode>, r: RoleCode)
    requires Seeded(db) && Guarded(db, mark) && MayGrant(db, actor, roles) && r in roles
    ensures !Tainted(db, mark, r)
  {
    match mark
    case Carrying(x) =>
      NobodyHasMeans(db, x);
      assert !Has(db, actor, x);
    case TheRole =>
      assert !Able(db, actor);
  }

  lemma {:induction false} DeleteManyOps(us: seq<UserId>)
    ensures forall op :: op in DeleteManyPlan(us) ==> !op.ReplaceRoles? && !op.WriteProfile? && !op.InsertUser?
  {
    if us != [] { DeleteManyOps(us[1..]); }
  }

  lemma {:induction false} AssignManyOps(us: seq<UserId>, roles: seq<RoleCode>, known: bool)
    ensures forall op :: op in AssignManyPlan(us, roles, known) ==>
              !op.WriteProfile? && !op.InsertUser? && (op.ReplaceRoles? ==> op.user in us && op.roles == roles)
  {
    if us != [] { AssignManyOps(us[1..], roles, known); }
  }

  /** No request an actor may make plans to hand out the code. */
  lemma PlanClean(db: Db, next: UserId, mark: Mark, actor: UserId, req: Request, known: bool)
    requires Seeded(db) && Guarded(db, mark) && Accepts(db, next, req) && Entitled(db, actor, req)
    ensures forall op :: op in Plan(req, known) ==> CleanOp(db, mark, if req.CreateUser? then {req.user} else {}, op)
  {
    match req
    case DeleteUser(_) =>
    case DeleteMany(us) => DeleteManyOps(us);
    case UpdateUser(u, status) =>
      if status == Some(Active) {
        forall r | (u, r) in db.links ensures !Tainted(db, mark, r) {
          assert r in RolesOf(db, u);
          GrantableIsUntainted(db, mark, actor, RolesOf(db, u), r);
        }
      }
    case AssignRoles(_, roles) => ListUntainted(db, mark, actor, roles);
    case AssignRolesMany(us, roles) =>
      AssignManyOps(us, roles, known);
      ListUntainted(db, mark, actor, roles);
    case CreateUser(_, _, granted) =>
      if granted.Some? { ListUntainted(db, mark, actor, granted.value); }
  }

  lemma ListUntainted(db: Db, mark: Mark, actor: UserId, roles: seq<RoleCode>)
    requires Seeded(db) && Guarded(db, mark) && MayGrant(db, actor, SetOf(roles))
    ensures forall r :: r in roles ==> !Tainted(db, mark, r)
  {
    forall r | r in roles ensures !Tainted(db, mark, r) {
      GrantableIsUntainted(db, mark, actor, SetOf(roles), r);
    }
  }

  lemma BeginWithholds(s: State, t: TxId, actor: UserId, req: Request, mark: Mark)
    requires Withheld(s, mark) && Guarded(s.db, mark)
    requires Step(s, Begin(t, actor, req)).Some? && Entitled(s.db, actor, req)
    ensures Withheld(Step(s, Begin(t, actor, req)).value, mark)
  {
    var s' := Step(s, Begin(t, actor, req)).value;
    PlanClean(s.db, s.next, mark, actor, req, SUPER_ADMIN in s.db.roles && s.db.roles[SUPER_ADMIN]);
    assert req.CreateUser? ==> Inserts(s'.txs[t].todo[0], req.user);
    var tx := s'.txs[t];
    forall i | 0 <= i < |tx.todo| ensures CleanOp(s'.db, mark, tx.mine, tx.todo[i]) {
      assert tx.todo[i] in tx.todo;
    }
    assert Clean(s'.db, mark, tx);
    forall t1 | t1 in s'.txs ensures Clean(s'.db, mark, s'.txs[t1]) && Fresh(s', s'.txs[t1].mine) {
      if t1 != t { assert Clean(s.db, mark, s.txs[t1]) && Fresh(s, s.txs[t1].mine); }
    }
    forall t1, t2 | t1 in s'.txs && t2 in s'.txs && t1 != t2 ensures s'.txs[t1].mine !! s'.txs[t2].mine {
      assert t1 != t ==> Fresh(s, s.txs[t1].mine);
      assert t2 != t ==> Fresh(s, s.txs[t2].mine);
    }
  }

  lemma WriteStaysClean(db: Db, mark: Mark, tx: Tx, written: Delta, cleared: Option<UserId>)
    requires tx.todo != [] && Clean(db, mark, tx) && Write(tx.todo[0], tx.delta, Apply(tx.delta, db)) == Some(written)
    ensures Clean(db, mark, tx.(todo := tx.todo[1..], delta := written, cleared := cleared))
  {
    var op := tx.todo[0];
    assert CleanOp(db, mark, tx.mine, op);
    var left := tx.todo[1..];
    forall u | u in tx.mine ensures u in written.created || exists i :: 0 <= i < |left| && Inserts(left[i], u) {
      if u !in written.created {
        var i :| 0 <= i < |tx.todo| && Inserts(tx.todo[i], u);
        assert i != 0;
        assert left[i - 1] == tx.todo[i];
      }
    }
  }

  lemma FinishWithholds(s: State, t: TxId, mark: Mark)
    requires Withheld(s, mark) && t in s.txs
    ensures Withheld(Finish(s, t), mark)
  {}

  lemma ExecWithholds(s: State, t: TxId, mark: Mark)
    requires Withheld(s, mark) && t in s.txs && ExecTx(s, t).Some?
    ensures Withheld(ExecTx(s, t).value, mark)
  {
    var s', tx := ExecTx(s, t).value, s.txs[t];
    var written := Write(tx.todo[0], tx.delta, Apply(tx.delta, s.db));
    if written.None? {
      FinishWithholds(s, t, mark);
    } else {
      WriteStaysClean(s.db, mark, tx, written.value, s'.txs[t].cleared);
      forall t1 | t1 in s'.txs ensures Clean(s'.db, mark, s'.txs[t1]) && Fresh(s', s'.txs[t1].mine) {
        assert t1 != t ==> s'.txs[t1] == s.txs[t1];
      }
    }
  }

  /** Publishing clean writes gives nobody the code. */
  lemma ApplyWithholds(db: Db, mark: Mark, tx: Tx)
    requires Clean(db, mark, tx) && tx.todo == [] && NobodyHas(db, mark) && tx.mine !! db.users.Keys
    requires forall l :: l in db.links ==> l.0 in db.users
    ensures var db' := Apply(tx.delta, db);
            && NoMore(db, db', mark) && NobodyHas(db', mark) && (forall l :: l in db'.links ==> l.0 in db'.users)
            && db'.users.Keys == db.users.Keys + tx.delta.created.Keys
  {
    var db' := Apply(tx.delta, db);
    forall u: UserId | Barred(db', mark, u) ensures Barred(db, mark, u) {
      var r :| (u, r) in db'.links && Tainted(db', mark, r);
      assert Tainted(db, mark, r);
      assert (u, r) !in tx.delta.added;
    }
    forall u: UserId | Barred(db', mark, u) && Alive(db', u) ensures db'.users[u].status != Active {
      assert Barred(db, mark, u);
      var r :| (u, r) in db.links && Tainted(db, mark, r);
      assert u in db.users;
    }
  }

  lemma CommitWithholds(s: State, t: TxId, mark: Mark)
    requires Withheld(s, mark) && Step(s, Commit(t)).Some?
    ensures Withheld(Step(s, Commit(t)).value, mark)
  {
    var s', tx := Step(s, Commit(t)).value, s.txs[t];
    assert Clean(s.db, mark, tx) && Fresh(s, tx.mine);
    ApplyWithholds(s.db, mark, tx);
    forall t1 | t1 in s'.txs ensures Clean(s'.db, mark, s'.txs[t1]) && Fresh(s', s'.txs[t1].mine) {
      assert Clean(s.db, mark, s.txs[t1]) && Fresh(s, s.txs[t1].mine) && s.txs[t1].mine !! tx.mine;
      CleanStays(s.db, s'.db, mark, s.txs[t1]);
    }
  }

  /** Role maintenance adds no code that its actor lacks. */
  lemma RoleEventTaintsNothing(s: State, e: Event, mark: Mark)
    requires e.UpdateRole? || e.DeleteRole? || e.CreateRole? || e.AssignPermissions?
    requires Withheld(s, mark) && Step(s, e).Some? && Authorized(s.db, e)
    ensures forall r :: Tainted(Step(s, e).value.db, mark, r) ==> Tainted(s.db, mark, r)
    ensures Tainted(Step(s, e).value.db, mark, SUPER_ADMIN) && Seeded(Step(s, e).value.db)
  {
    if mark.Carrying? {
      NobodyHasMeans(s.db, mark.code);
      assert !Has(s.db, e.actor, mark.code);
    }
  }

  lemma RoleEventWithholds(s: State, e: Event, mark: Mark)
    requires e.UpdateRole? || e.DeleteRole? || e.CreateRole? || e.AssignPermissions?
    requires Withheld(s, mark) && Guarded(s.db, mark) && Step(s, e).Some? && Authorized(s.db, e)
    ensures Withheld(Step(s, e).value, mark)
  {
    var s' := Step(s, e).value;
    RoleEventTaintsNothing(s, e, mark);
    forall u: UserId | Barred(s'.db, mark, u) ensures Barred(s.db, mark, u) {
      var r :| (u, r) in s'.db.links && Tainted(s'.db, mark, r);
      assert Tainted(s.db, mark, r);
    }
    forall t1 | t1 in s'.txs ensures Clean(s'.db, mark, s'.txs[t1]) && Fresh(s', s'.txs[t1].mine) {
      assert Clean(s.db, mark, s.txs[t1]) && Fresh(s, s.txs[t1].mine);
      CleanStays(s.db, s'.db, mark, s.txs[t1]);
    }
  }

  lemma StepWithholds(s: State, e: Event, mark: Mark)
    requires Withheld(s, mark) && Guarded(s.db, mark) && Step(s, e).Some? && Authorized(s.db, e)
    ensures Withheld(Step(s, e).value, mark)
  {
    match e
    case Begin(t, actor, req) => BeginWithholds(s, t, actor, req, mark);
    case Exec(t) => ExecWithholds(s, t, mark);
    case Commit(t) => CommitWithholds(s, t, mark);
    case Abort(t) => FinishWithholds(s, t, mark);
    case _ => RoleEventWithholds(s, e, mark);
  }

  lemma WithheldHasNone(s: State, mark: Mark)
    requires Withheld(s, mark)
    ensures SuperAdmins(s.db) == {}
  {
    assert forall u: UserId :: (u, SUPER_ADMIN) in s.db.links ==> Barred(s.db, mark, u);
  }

  /** Some authorized run leads to a user who may grant super_admin. */
  ghost predicate CanBecomeAble(s: State) {
    exists es: seq<Event>, m: State, a: UserId :: Leads(s, es, m) && Able(m.db, a)
  }

  lemma StaysUnable(s: State, e: Event, next: State)
    requires !CanBecomeAble(s) && Authorized(s.db, e) && Step(s, e) == Some(next)
    ensures !CanBecomeAble(next)
  {
    forall es: seq<Event>, m: State, a: UserId | Leads(next, es, m) ensures !Able(m.db, a) {
      LeadsCons(s, e, next, es, m);
    }
  }

  lemma NobodyAbleNow(s: State)
    requires !CanBecomeAble(s)
    ensures forall a :: !Able(s.db, a)
  {
    assert Leads(s, [], s);
  }

  /**
   What is withheld at the start is withheld after any interleaving: a code of super_admin that no user has, or the
   role itself as long as nobody can come to grant it.
   */
  lemma {:induction false} RunWithholds(s: State, es: seq<Event>, m: State, mark: Mark)
    requires Withheld(s, mark) && Leads(s, es, m) && (mark.TheRole? ==> !CanBecomeAble(s))
    ensures Withheld(m, mark) && SuperAdmins(m.db) == {}
    decreases |es|
  {
    if es == [] {
      WithheldHasNone(s, mark);
    } else {
      var next := Step(s, es[0]).value;
      if mark.TheRole? {
        NobodyAbleNow(s);
        StaysUnable(s, es[0], next);
      }
      StepWithholds(s, es[0], mark);
      RunWithholds(next, es[1..], m, mark);
    }
  }

  /** Rolling back every open transaction leads to a quiescent state with the same tables. */
  lemma {:induction false} AbortAll(s: State) returns (es: seq<Event>, m: State)
    requires s.holder.Some? ==> s.holder.value in s.txs
    ensures Leads(s, es, m) && m == s.(txs := map[], holder := None)
    decreases |s.txs|
  {
    if s.txs == map[] {
      es, m := [], s;
    } else {
      var t :| t in s.txs;
      var next := Finish(s, t);
      assert |next.txs| < |s.txs| by {
        assert next.txs.Keys == s.txs.Keys - {t};
      }
      es, m := AbortAll(next);
      LeadsCons(s, Abort(t), next, es, m);
      es := [Abort(t)] + es;
    }
  }

  lemma LosesAfter(s: State, es: seq<Event>, m: State)
    requires Leads(s, es, m) && !NeverLosesLast(m)
    ensures !NeverLosesLast(s)
  {
    var es1, m1, es2, m2 :|
      Leads(m, es1, m1) && SuperAdmins(m1.db) != {} && Leads(m1, es2, m2) && SuperAdmins(m2.db) == {};
    LeadsAppend(s, es, m, es1, m1);
    LosesLast(s, es + es1, m1, es2, m2);
  }

  /** On the way to the first able user nobody has the role yet; from there the race is open. */
  lemma {:induction false} FirstAbleLoses(s: State, es: seq<Event>, m: State, a: UserId)
    requires Withheld(s, TheRole) && Leads(s, es, m) && Able(m.db, a)
    ensures !NeverLosesLast(s)
    decreases |es|
  {
    if b :| Able(s.db, b) {
      WithheldHasNone(s, TheRole);
      var quiet, q := AbortAll(s);
      RaceWithoutSuperAdmin(q, b);
      LosesAfter(s, quiet, q);
    } else {
      var next := Step(s, es[0]).value;
      StepWithholds(s, es[0], TheRole);
      FirstAbleLoses(next, es[1..], m, a);
      assert [es[0]] + [] == [es[0]] && Leads(next, [], next);
      LeadsCons(s, es[0], next, [], next);
      LosesAfter(s, [es[0]], next);
    }
  }

  lemma QuiescentWithholds(s: State)
    requires Quiescent(s) && SuperAdmins(s.db) == {}
    ensures Withheld(s, TheRole)
  {
    forall u: UserId | Barred(s.db, TheRole, u) && Alive(s.db, u) ensures s.db.users[u].status != Active {
      assert (u, SUPER_ADMIN) in s.db.links && u !in SuperAdmins(s.db);
    }
  }

  /**
   The exact condition under which the protocol keeps its promise: it never loses the last super administrator if
   and only if there is one when requests start to be served, or nobody can ever come to grant the role.
   */
  lemma NeverLosesLastIff(s: State)
    requires Quiescent(s)
    ensures NeverLosesLast(s) <==> SuperAdmins(s.db) != {} || !CanBecomeAble(s)
  {
    if SuperAdmins(s.db) != {} {
      BootstrappedNeverLoses(s);
    } else {
      QuiescentWithholds(s);
      if CanBecomeAble(s) {
        var es, m, a :| Leads(s, es, m) && Able(m.db, a);
        FirstAbleLoses(s, es, m, a);
      } else {
        forall es: seq<Event>, m: State | Leads(s, es, m) ensures SuperAdmins(m.db) == {} {
          RunWithholds(s, es, m, TheRole);
        }
      }
    }
  }

  /**
   Two cases that the tables at the start decide: a user who may grant the role now, and a code of the role that no
   user has, which then nobody ever gets.
   */
  lemma AbleAtTheStart(s: State, c: Code)
    requires Quiescent(s)
    ensures (exists a :: Able(s.db, a)) ==> CanBecomeAble(s)
    ensures c in CodesOf(s.db, SUPER_ADMIN) && (forall u :: !Has(s.db, u, c)) ==> !CanBecomeAble(s)
  {
    assert Leads(s, [], s);
    if c in CodesOf(s.db, SUPER_ADMIN) && (forall u :: !Has(s.db, u, c)) {
      NobodyHasMeans(s.db, c);
      forall es: seq<Event>, m: State, a: UserId | Leads(s, es, m) ensures !Able(m.db, a) {
        RunWithholds(s, es, m, Carrying(c));
        NobodyHasMeans(m.db, c);
        assert !Has(m.db, a, c) && c in CodesOf(m.db, SUPER_ADMIN);
      }
    }
  }

  lemma BootstrappedNeverLoses(s: State)
    requires Quiescent(s) && SuperAdmins(s.db) != {}
    ensures NeverLosesLast(s)
  {
    forall es: seq<Event>, m: State, more: seq<Event>, m': State | Leads(s, es, m) && Leads(m, more, m')
      ensures SuperAdmins(m'.db) != {}
    {
      LeadsAppend(s, es, m, more, m');
      LeadsIsRun(s, es + more, m');
      EveryRunKeepsASuperAdmin(s, es + more);
    }
  }
}
