/**
 What a committed role assignment leaves, whatever other transactions do between its statements. At READ COMMITTED
 the DELETE sees the links committed when it runs, so links that others commit between it and the commit stay.
 */
module CommittedRequests {
  import opened Prelude
  import opened SuperAdminGuard

  /** The event begins or ends transaction `t`. */
  predicate Bounds(e: Event, t: TxId) {
    (e.Begin? || e.Commit? || e.Abort?) && e.tx == t
  }

  /** Where an assignment stands; `seen` holds the tables its DELETE ran on, once it has. */
  predicate Assigning(tx: Tx, u: UserId, roles: seq<RoleCode>, seen: Option<Db>) {
    && tx.mine == {}
    && match seen
       case None =>
         && tx.delta == NOTHING
         && (tx.todo == [LockRoleRow, CheckLast(u), ReplaceRoles(u, roles)]
             || tx.todo == [CheckLast(u), ReplaceRoles(u, roles)] || tx.todo == [ReplaceRoles(u, roles)])
       case Some(v) =>
         && tx.todo == []
         && tx.delta == Delta(map[], map[], {}, LinksOf(u, v.links), LinksTo(u, roles))
  }

  /** The tables an assignment has seen after one more event: its own DELETE sees the committed links. */
  ghost function SeenAfter(s: State, e: Event, t: TxId, seen: Option<Db>): Option<Db> {
    if e == Exec(t) && t in s.txs && s.txs[t].todo != [] && s.txs[t].todo[0].ReplaceRoles? then Some(s.db) else seen
  }

  lemma StepKeepsAssigning(s: State, e: Event, t: TxId, u: UserId, roles: seq<RoleCode>, seen: Option<Db>)
    requires t in s.txs && Assigning(s.txs[t], u, roles, seen) && !Bounds(e, t)
    requires Step(s, e).Some? && t in Step(s, e).value.txs
    ensures Assigning(Step(s, e).value.txs[t], u, roles, SeenAfter(s, e, t, seen))
  {
    if e == Exec(t) {
      var todo := s.txs[t].todo;
      assert todo[1..] == if todo[0].LockRoleRow? then [CheckLast(u), ReplaceRoles(u, roles)]
                          else if todo[0].CheckLast? then [ReplaceRoles(u, roles)] else [];
      assert Apply(NOTHING, s.db).links == s.db.links;
    }
  }

  lemma {:induction false} GoneStaysGone(s: State, es: seq<Event>, t: TxId)
    requires t !in s.txs && Run(s, es).Some? && forall e :: e in es ==> !Bounds(e, t)
    ensures t !in Run(s, es).value.txs
    decreases |es|
  {
    if es != [] {
      assert es[0] in es;
      GoneStaysGone(Step(s, es[0]).value, es[1..], t);
    }
  }

  /** The DELETE runs at some point of the run, unless it had run before. */
  lemma {:induction false} DeleteRunsOnce(s: State, es: seq<Event>, t: TxId, u: UserId, roles: seq<RoleCode>,
      seen: Option<Db>) returns (k: nat)
    requires t in s.txs && Assigning(s.txs[t], u, roles, seen) && forall e :: e in es ==> !Bounds(e, t)
    requires Run(s, es).Some? && t in Run(s, es).value.txs && Run(s, es).value.txs[t].todo == []
    ensures seen.Some? ==> Assigning(Run(s, es).value.txs[t], u, roles, seen)
    ensures seen.None? ==> k < |es| && es[k] == Exec(t) && Run(s, es[..k]).Some?
                           && Assigning(Run(s, es).value.txs[t], u, roles, Some(Run(s, es[..k]).value.db))
    decreases |es|
  {
    k := 0;
    if es != [] {
      var next := Step(s, es[0]).value;
      if t !in next.txs { GoneStaysGone(next, es[1..], t); }
      StepKeepsAssigning(s, es[0], t, u, roles, seen);
      var seen' := SeenAfter(s, es[0], t, seen);
      var i := DeleteRunsOnce(next, es[1..], t, u, roles, seen');
      if seen'.None? {
        k := i + 1;
        assert es[..k][1..] == es[1..][..i];
      }
    }
  }

  lemma CommitOfAssignment(m: State, t: TxId, u: UserId, roles: seq<RoleCode>, v: Db)
    requires t in m.txs && Assigning(m.txs[t], u, roles, Some(v)) && Step(m, Commit(t)).Some?
    ensures var m' := Step(m, Commit(t)).value;
            && m'.db.users == m.db.users && m'.db.roles == m.db.roles && m'.db.codes == m.db.codes
            && forall l :: l in m'.db.links <==>
                 if l.0 == u then l.1 in roles || (l in m.db.links && l !in v.links) else l in m.db.links
  {}

  /**
   A committed assignment of `roles` to `u`, in every interleaving: afterwards a link of another user is there exactly
   if it was committed before; a link of `u` is there exactly if it is one of the given roles, or if some other
   transaction committed it after this one's DELETE, which ran at event k on the tables of that moment.
   */
  lemma CommittedAssignment(s: State, t: TxId, actor: UserId, u: UserId, roles: seq<RoleCode>, es: seq<Event>, m: State)
    returns (k: nat)
    requires Step(s, Begin(t, actor, AssignRoles(u, roles))).Some?
    requires Run(Step(s, Begin(t, actor, AssignRoles(u, roles))).value, es) == Some(m)
    requires (forall e :: e in es ==> !Bounds(e, t)) && Step(m, Commit(t)).Some?
    ensures var begun, after := Step(s, Begin(t, actor, AssignRoles(u, roles))).value, Step(m, Commit(t)).value;
            && k < |es| && es[k] == Exec(t) && Run(begun, es[..k]).Some?
            && after.db.users == m.db.users && after.db.roles == m.db.roles && after.db.codes == m.db.codes
            && forall l :: l in after.db.links <==>
                 if l.0 != u then l in m.db.links
                 else l.1 in roles || (l in m.db.links && l !in Run(begun, es[..k]).value.db.links)
  {
    var begun := Step(s, Begin(t, actor, AssignRoles(u, roles))).value;
    assert Assigning(begun.txs[t], u, roles, None);
    k := DeleteRunsOnce(begun, es, t, u, roles, None);
    CommitOfAssignment(m, t, u, roles, Run(begun, es[..k]).value.db);
  }

  // ---------------------------------------------------------------- what a request must meet to begin

  /** The users a request may end the status of, and the roles it may hand out. */
  function Targets(req: Request): set<UserId> {
    match req
    case DeleteMany(us) => SetOf(us)
    case AssignRolesMany(us, _) => SetOf(us)
    case CreateUser(_, _, _) => {}
    case _ => {req.user}
  }

  function Handed(db: Db, req: Request): set<RoleCode> {
    match req
    case AssignRoles(_, roles) => SetOf(roles)
    case AssignRolesMany(_, roles) => SetOf(roles)
    case CreateUser(_, _, granted) => if granted.Some? then SetOf(granted.value) else {}
    case UpdateUser(u, status) => if status == Some(Active) then RolesOf(db, u) else {}
    case _ => {}
  }

  /**
   A request begins only for living users, and for each at most once; a list of roles it assigns names existing,
   active roles without repetition.
   */
  lemma BeginsOnLivingTargets(s: State, t: TxId, actor: UserId, req: Request)
    requires Step(s, Begin(t, actor, req)).Some?
    ensures forall u :: u in Targets(req) ==> u in s.db.users && !s.db.users[u].deleted
    ensures !req.UpdateUser? ==> forall r :: r in Handed(s.db, req) ==> r in s.db.roles && s.db.roles[r]
    ensures req.AssignRoles? || req.AssignRolesMany? ==>
              forall i, j :: 0 <= i < j < |req.roles| ==> req.roles[i] != req.roles[j]
    ensures req.DeleteMany? || req.AssignRolesMany? ==>
              req.users != [] && forall i, j :: 0 <= i < j < |req.users| ==> req.users[i] != req.users[j]
  {}

  /**
   An authorized actor is active, neither deletes nor deactivates itself, and hands out, by assignment, by creation or
   by activating a user who has it, only active roles all of whose codes it has, super_admin only with the code for
   that.
   */
  lemma ActorsStayWithinBounds(db: Db, actor: UserId, req: Request, r: RoleCode, c: Code)
    requires Entitled(db, actor, req)
    ensures actor in db.users && !db.users[actor].deleted && db.users[actor].status == Active
    ensures req.DeleteUser? || req.DeleteMany? || req.AssignRolesMany? ==> actor !in Targets(req)
    ensures req.UpdateUser? && req.status.Some? && req.status.value != Active ==> actor != req.user
    ensures r in Handed(db, req) ==> r in db.roles && db.roles[r]
    ensures r in Handed(db, req) && r in db.codes && c in db.codes[r] ==> Has(db, actor, c)
    ensures "super_admin" in Handed(db, req) ==> Has(db, actor, "user:super_admin:grant")
  {}

  /** What an active, living user may do is what its active roles carry. */
  lemma HasIff(db: Db, u: UserId, c: Code)
    ensures Has(db, u, c)
       <==> && u in db.users && !db.users[u].deleted && db.users[u].status == Active
            && exists r :: (u, r) in db.links && r in db.roles && db.roles[r] && r in db.codes && c in db.codes[r]
  {
    if Has(db, u, c) {
      var l :| l in db.links && l.0 == u && l.1 in db.roles && db.roles[l.1] && Carries(db, l.1, c);
      assert (u, l.1) == l;
    }
    if r :| (u, r) in db.links && r in db.roles && db.roles[r] && r in db.codes && c in db.codes[r] {
      assert (u, r).0 == u && (u, r).1 == r && Carries(db, r, c);
    }
  }

  /** Role maintenance changes the one role it names: its activity, its codes, or its existence with its links. */
  lemma RoleEventOutcome(s: State, e: Event, r: RoleCode)
    requires e.UpdateRole? || e.DeleteRole? || e.CreateRole? || e.AssignPermissions?
    requires Step(s, e).Some?
    ensures var db, db' := s.db, Step(s, e).value.db;
            && db'.users == db.users
            && (r != e.role ==> ((r in db'.roles) <==> r in db.roles) && ((r in db'.codes) <==> r in db.codes)
                                && (r in db.roles ==> db'.roles[r] == db.roles[r])
                                && (r in db.codes ==> db'.codes[r] == db.codes[r]))
            && (forall l :: l in db'.links <==> l in db.links && !(e.DeleteRole? && l.1 == e.role))
            && match e
               case UpdateRole(_, _, active) =>
                 && e.role in db.roles && e.role in db'.roles && db'.codes == db.codes
                 && db'.roles[e.role] == (if active.Some? then active.value else db.roles[e.role])
                 && (e.role == "super_admin" ==> active != Some(false))
               case DeleteRole(_, _) =>
                 && e.role in db.roles && e.role != "super_admin" && e.role !in db'.roles && e.role !in db'.codes
                 && forall u :: u in db.users && (u, e.role) in db.links ==> db.users[u].deleted
               case CreateRole(_, _, granted) =>
                 && e.role !in db.roles && e.role in db'.roles && db'.roles[e.role]
                 && e.role in db'.codes && db'.codes[e.role] == granted
               case AssignPermissions(_, _, granted) =>
                 && e.role in db.roles && e.role != "super_admin" && db'.roles == db.roles
                 && e.role in db'.codes && db'.codes[e.role] == granted
               case _ => true
  {}
}
