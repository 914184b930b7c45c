/**
 Server-side sessions: rows created from a user row that was read earlier, guarded by token_version,
 revoked in bulk, and capped per user. Reading the user row and creating the session are separate steps,
 so password changes and other logins fall between them.
 */
module Sessions {
  import opened Prelude

  type UserId = nat
  type SessionId = nat
  type Thread = nat

  const WEEK := 7 * 86_400

  datatype User = User(version: nat, active: bool, deleted: bool, mfaMissing: bool)
  datatype Session = Session(user: UserId, version: nat, created: int, expires: int, lastSeen: int, idle: nat,
      revoked: Option<int>)
  datatype Row = Row(user: UserId, version: nat)
  type Table = map<SessionId, Session>

  // ---------------------------------------------------------------- the cap on sessions per user

  function Live(t: Table, user: UserId): set<SessionId> {
    set i | i in t && t[i].user == user && t[i].revoked == None
  }

  /** The order of ORDER BY created_at DESC, id DESC. */
  predicate Newer(t: Table, a: SessionId, b: SessionId)
    requires a in t && b in t
  {
    t[a].created > t[b].created || (t[a].created == t[b].created && a > b)
  }

  lemma {:induction false} NewestExists(t: Table, ids: set<SessionId>) returns (n: SessionId)
    requires ids <= t.Keys && ids != {}
    ensures n in ids && forall i :: i in ids && i != n ==> Newer(t, n, i)
    decreases |ids|
  {
    var x :| x in ids;
    if ids == {x} {
      n := x;
    } else {
      var m := NewestExists(t, ids - {x});
      n := if Newer(t, x, m) then x else m;
      forall i | i in ids && i != n ensures Newer(t, n, i) {
        assert i == x || i in ids - {x};
      }
    }
  }

  function Ahead(t: Table, ids: set<SessionId>, i: SessionId): set<SessionId>
    requires ids <= t.Keys && i in t
  {
    set j | j in ids && Newer(t, j, i)
  }

  /** The first `limit` rows of the ordered query: those with fewer than `limit` rows ahead of them. */
  function FirstRows(t: Table, ids: set<SessionId>, limit: nat): set<SessionId>
    requires ids <= t.Keys
  {
    set i | i in ids && |Ahead(t, ids, i)| < limit
  }

  lemma AheadWithoutNewest(t: Table, ids: set<SessionId>, n: SessionId, i: SessionId)
    requires ids <= t.Keys && n in ids && i in ids && i != n
    requires forall j :: j in ids && j != n ==> Newer(t, n, j)
    ensures |Ahead(t, ids, i)| == |Ahead(t, ids - {n}, i)| + 1
  {
    assert Ahead(t, ids, i) == {n} + Ahead(t, ids - {n}, i);
  }

  lemma NewestComesFirst(t: Table, ids: set<SessionId>, n: SessionId, limit: nat)
    requires ids <= t.Keys && n in ids && limit > 0
    requires forall j :: j in ids && j != n ==> Newer(t, n, j)
    ensures FirstRows(t, ids, limit) == {n} + FirstRows(t, ids - {n}, limit - 1)
  {
    assert Ahead(t, ids, n) == {};
    forall i | i in ids - {n} ensures i in FirstRows(t, ids, limit) <==> i in FirstRows(t, ids - {n}, limit - 1) {
      AheadWithoutNewest(t, ids, n, i);
    }
  }

  /** LIMIT returns as many rows as there are, up to the limit. */
  lemma {:induction false} FirstRowsCount(t: Table, ids: set<SessionId>, limit: nat)
    requires ids <= t.Keys
    ensures |FirstRows(t, ids, limit)| == if |ids| < limit then |ids| else limit
    decreases |ids|
  {
    if ids == {} || limit == 0 {
      assert FirstRows(t, ids, limit) == {};
    } else {
      var n := DropNewest(t, ids, limit);
      FirstRowsCount(t, ids - {n}, limit - 1);
    }
  }

  lemma DropNewest(t: Table, ids: set<SessionId>, limit: nat) returns (n: SessionId)
    requires ids <= t.Keys && ids != {} && limit > 0
    ensures n in ids && |FirstRows(t, ids, limit)| == 1 + |FirstRows(t, ids - {n}, limit - 1)|
  {
    n := NewestExists(t, ids);
    NewestComesFirst(t, ids, n, limit);
  }

  /** No row left out by LIMIT is newer than one it returns. */
  lemma FirstRowsAreNewest(t: Table, ids: set<SessionId>, limit: nat, i: SessionId, j: SessionId)
    requires ids <= t.Keys && i in FirstRows(t, ids, limit) && j in ids - FirstRows(t, ids, limit)
    ensures Newer(t, i, j)
  {
    if Newer(t, j, i) {
      SubsetSize(Ahead(t, ids, j), Ahead(t, ids, i));
    }
  }

  /** revoke_all_for_user */
  function RevokeAll(t: Table, user: UserId, now: int): Table {
    map i | i in t :: if i in Live(t, user) then t[i].(revoked := Some(now)) else t[i]
  }

  /** enforce_user_limit */
  function EnforceLimit(t: Table, user: UserId, limit: nat, now: int): Table {
    map i | i in t ::
      if i in Live(t, user) && i !in FirstRows(t, Live(t, user), limit) then t[i].(revoked := Some(now)) else t[i]
  }

  function PruneSessions(t: Table, now: int): Table {
    map i | i in t && !(t[i].expires < now - WEEK) && !(t[i].revoked.Some? && t[i].revoked.value < now - WEEK) :: t[i]
  }

  /** After the cap, the live sessions are the newest of those there were. */
  lemma LimitKeepsNewest(t: Table, user: UserId, limit: nat, now: int)
    ensures var t' := EnforceLimit(t, user, limit, now);
            && Live(t', user) == FirstRows(t, Live(t, user), limit)
            && |Live(t', user)| == (if |Live(t, user)| < limit then |Live(t, user)| else limit)
            && (forall i, j :: i in Live(t', user) && j in Live(t, user) - Live(t', user) ==> Newer(t, i, j))
            && (forall other :: other != user ==> Live(t', other) == Live(t, other))
  {
    FirstRowsCount(t, Live(t, user), limit);
    var t' := EnforceLimit(t, user, limit, now);
    assert Live(t', user) == FirstRows(t, Live(t, user), limit);
    forall i, j | i in Live(t', user) && j in Live(t, user) - Live(t', user) ensures Newer(t, i, j) {
      FirstRowsAreNewest(t, Live(t, user), limit, i, j);
    }
    forall other | other != user ensures Live(t', other) == Live(t, other) {}
  }

  // ---------------------------------------------------------------- the machine

  datatype State = State(
    now: int,
    users: map<UserId, User>,
    sessions: Table,
    seen: map<Thread, Row>,
    nextSession: SessionId)

  datatype Event =
    | Advance(seconds: nat)
    | ReadUser(thread: Thread, user: UserId)
    | CreateSession(thread: Thread, ttl: nat, idle: nat)
    | Forget(thread: Thread)
    | ChangePassword(user: UserId)
    | RevokeUser(user: UserId)
    | Logout(session: SessionId, user: UserId)
    | Touch(session: SessionId)
    | SetAccount(user: UserId, active: bool, deleted: bool, mfaMissing: bool)

  /** The WHERE clause of auth_context. */
  predicate Authenticates(s: State, i: SessionId) {
    && i in s.sessions && s.sessions[i].user in s.users
    && var x, u := s.sessions[i], s.users[s.sessions[i].user];
       && x.revoked == None && x.expires > s.now && x.lastSeen + x.idle > s.now
       && x.version == u.version && !u.deleted && u.active && !u.mfaMissing
  }

  function NewSession(s: State, t: Thread, ttl: nat, idle: nat): Table
    requires t in s.seen
  {
    s.sessions[s.nextSession := Session(s.seen[t].user, s.seen[t].version, s.now, s.now + ttl, s.now, idle, None)]
  }

  function Step(s: State, limit: nat, e: Event): Option<State> {
    match e
    case Advance(d) => Some(s.(now := s.now + d))
    case ReadUser(t, u) =>
      if u !in s.users || s.users[u].deleted then None else Some(s.(seen := s.seen[t := Row(u, s.users[u].version)]))
    case CreateSession(t, ttl, idle) =>
      if t !in s.seen then None
      else
        var capped := EnforceLimit(NewSession(s, t, ttl, idle), s.seen[t].user, limit, s.now);
        Some(s.(sessions := PruneSessions(capped, s.now), seen := s.seen - {t}, nextSession := s.nextSession + 1))
    case Forget(t) => Some(s.(seen := s.seen - {t}))
    case ChangePassword(u) =>
      if u !in s.users || s.users[u].deleted then None
      else Some(s.(users := s.users[u := s.users[u].(version := s.users[u].version + 1)],
                   sessions := RevokeAll(s.sessions, u, s.now)))
    case RevokeUser(u) => Some(s.(sessions := RevokeAll(s.sessions, u, s.now)))
    case Logout(i, u) =>
      if i !in Live(s.sessions, u) then Some(s)
      else Some(s.(sessions := s.sessions[i := s.sessions[i].(revoked := Some(s.now))]))
    case Touch(i) =>
      if !Authenticates(s, i) then None
      else if s.sessions[i].lastSeen >= s.now - 60 then Some(s)
      else Some(s.(sessions := s.sessions[i := s.sessions[i].(lastSeen := s.now)]))
    case SetAccount(u, active, deleted, mfaMissing) =>
      if u !in s.users then Some(s.(users := s.users[u := User(0, active, deleted, mfaMissing)]))
      else Some(s.(users := s.users[u := s.users[u].(active := active, deleted := deleted, mfaMissing := mfaMissing)]))
  }

  function Run(s: State, limit: nat, es: seq<Event>): Option<State>
    decreases |es|
  {
    if es == [] then Some(s)
    else
      var s' := Step(s, limit, es[0]);
      if s'.None? then None else Run(s'.value, limit, es[1..])
  }

  predicate NotAhead(users: map<UserId, User>, user: UserId, version: nat) {
    user in users && version <= users[user].version
  }

  /** No session and no row read so far is ahead of its user's version; ids and times come from the database. */
  ghost predicate Inv(s: State) {
    && (forall i :: i in s.sessions ==>
          i < s.nextSession && s.sessions[i].created <= s.now
              && NotAhead(s.users, s.sessions[i].user, s.sessions[i].version))
    && (forall t :: t in s.seen ==> NotAhead(s.users, s.seen[t].user, s.seen[t].version))
  }

  ghost predicate Capped(s: State, limit: nat) {
    forall u :: |Live(s.sessions, u)| <= limit
  }

  /** Rows of `t'` are rows of `t`, at most revoked or touched. */
  ghost predicate Derived(t': Table, t: Table) {
    forall i :: i in t' ==>
      && i in t && t'[i].user == t[i].user && t'[i].version == t[i].version && t'[i].created == t[i].created
      && (t[i].revoked.Some? ==> t'[i].revoked.Some?)
  }

  lemma DerivedKeepsLive(t': Table, t: Table, user: UserId)
    requires Derived(t', t)
    ensures Live(t', user) <= Live(t, user)
  {}

  lemma CreatedTable(s: State, limit: nat, t: Thread, ttl: nat, idle: nat)
    requires t in s.seen
    ensures Derived(Step(s, limit, CreateSession(t, ttl, idle)).value.sessions, NewSession(s, t, ttl, idle))
  {}

  /** Apart from a login, every event only revokes, touches or drops sessions. */
  lemma OtherEventsDerive(s: State, limit: nat, e: Event)
    requires !e.CreateSession? && Step(s, limit, e).Some?
    ensures Derived(Step(s, limit, e).value.sessions, s.sessions)
  {}

  lemma VersionsOnlyGrow(s: State, limit: nat, e: Event)
    requires Step(s, limit, e).Some?
    ensures var s' := Step(s, limit, e).value;
            && s.now <= s'.now && s.nextSession <= s'.nextSession
            && (forall u, v :: NotAhead(s.users, u, v) ==> NotAhead(s'.users, u, v))
  {}

  lemma SeenStaysOk(s: State, limit: nat, e: Event)
    requires Inv(s) && Step(s, limit, e).Some?
    ensures var s' := Step(s, limit, e).value;
            forall t :: t in s'.seen ==> NotAhead(s'.users, s'.seen[t].user, s'.seen[t].version)
  {}

  lemma StepKeepsInv(s: State, limit: nat, e: Event)
    requires Inv(s) && Step(s, limit, e).Some?
    ensures Inv(Step(s, limit, e).value)
  {
    VersionsOnlyGrow(s, limit, e);
    SeenStaysOk(s, limit, e);
    var s' := Step(s, limit, e).value;
    var t := if e.CreateSession? then NewSession(s, e.thread, e.ttl, e.idle) else s.sessions;
    if e.CreateSession? {
      CreatedTable(s, limit, e.thread, e.ttl, e.idle);
    } else {
      OtherEventsDerive(s, limit, e);
    }
    assert Derived(s'.sessions, t);
    forall i | i in s'.sessions
      ensures i < s'.nextSession && s'.sessions[i].created <= s'.now
              && NotAhead(s'.users, s'.sessions[i].user, s'.sessions[i].version)
    {
      assert i in t && NotAhead(s.users, t[i].user, t[i].version);
    }
  }

  lemma {:induction false} RunKeepsInv(s: State, limit: nat, es: seq<Event>)
    requires Inv(s) && Run(s, limit, es).Some?
    ensures Inv(Run(s, limit, es).value)
    decreases |es|
  {
    if es != [] {
      StepKeepsInv(s, limit, es[0]);
      RunKeepsInv(Step(s, limit, es[0]).value, limit, es[1..]);
    }
  }

  // ---------------------------------------------------------------- password changes

  /** Versions below `v` are outdated for the user, and remain so. */
  ghost predicate Outdated(s: State, user: UserId, v: nat) {
    user in s.users && v < s.users[user].version
  }

  /** Session `i`, if it still exists, was built for `user` from an outdated version. */
  ghost predicate Stale(s: State, i: SessionId, user: UserId, v: nat) {
    i < s.nextSession && Outdated(s, user, v)
        && (i in s.sessions ==> s.sessions[i].user == user && s.sessions[i].version == v)
  }

  lemma StepKeepsStale(s: State, limit: nat, e: Event, i: SessionId, user: UserId, v: nat)
    requires Stale(s, i, user, v) && Step(s, limit, e).Some?
    ensures Stale(Step(s, limit, e).value, i, user, v)
  {}

  lemma {:induction false} StaleNeverAuthenticates(s: State, limit: nat, es: seq<Event>, i: SessionId, user: UserId,
      v: nat)
    requires Stale(s, i, user, v) && Run(s, limit, es).Some?
    ensures !Authenticates(Run(s, limit, es).value, i) && Stale(Run(s, limit, es).value, i, user, v)
    decreases |es|
  {
    if es != [] {
      StepKeepsStale(s, limit, es[0], i, user, v);
      StaleNeverAuthenticates(Step(s, limit, es[0]).value, limit, es[1..], i, user, v);
    }
  }

  lemma StepKeepsOutdated(s: State, limit: nat, e: Event, user: UserId, v: nat)
    requires Outdated(s, user, v) && Step(s, limit, e).Some?
    ensures Outdated(Step(s, limit, e).value, user, v)
  {}

  lemma {:induction false} RunKeepsOutdated(s: State, limit: nat, es: seq<Event>, user: UserId, v: nat)
    requires Outdated(s, user, v) && Run(s, limit, es).Some?
    ensures Outdated(Run(s, limit, es).value, user, v)
    decreases |es|
  {
    if es != [] {
      StepKeepsOutdated(s, limit, es[0], user, v);
      RunKeepsOutdated(Step(s, limit, es[0]).value, limit, es[1..], user, v);
    }
  }

  /** Sessions that exist when the password changes never authenticate afterwards. */
  lemma ChangeEndsSessions(s: State, limit: nat, user: UserId, es: seq<Event>, i: SessionId)
    requires Inv(s) && i in s.sessions && s.sessions[i].user == user
    requires Step(s, limit, ChangePassword(user)).Some?
    requires Run(Step(s, limit, ChangePassword(user)).value, limit, es).Some?
    ensures !Authenticates(Run(Step(s, limit, ChangePassword(user)).value, limit, es).value, i)
  {
    StaleNeverAuthenticates(Step(s, limit, ChangePassword(user)).value, limit, es, i, user, s.sessions[i].version);
  }

  /**
   A session built from a user row read before a password change never authenticates after it, however
   long the login lingers (`meanwhile`) before the session is created and whatever happens later.
   */
  lemma LateSessionNeverAuthenticates(
    s: State, limit: nat, t: Thread, meanwhile: seq<Event>, ttl: nat, idle: nat, later: seq<Event>)
    requires Inv(s) && t in s.seen
    requires var change := ChangePassword(s.seen[t].user);
             && Step(s, limit, change).Some? && Run(Step(s, limit, change).value, limit, meanwhile).Some?
             && var m := Run(Step(s, limit, change).value, limit, meanwhile).value;
                && t in m.seen && m.seen[t] == s.seen[t]
                && Run(Step(m, limit, CreateSession(t, ttl, idle)).value, limit, later).Some?
    ensures var m := Run(Step(s, limit, ChangePassword(s.seen[t].user)).value, limit, meanwhile).value;
            !Authenticates(Run(Step(m, limit, CreateSession(t, ttl, idle)).value, limit, later).value, m.nextSession)
  {
    var user, v := s.seen[t].user, s.seen[t].version;
    var s1 := Step(s, limit, ChangePassword(user)).value;
    RunKeepsOutdated(s1, limit, meanwhile, user, v);
    var m := Run(s1, limit, meanwhile).value;
    var s2 := Step(m, limit, CreateSession(t, ttl, idle)).value;
    StaleNeverAuthenticates(s2, limit, later, m.nextSession, user, v);
  }

  // ---------------------------------------------------------------- the cap over runs

  /** A login leaves at most `limit` live sessions, the new one among them, all newer than those it revoked. */
  lemma LoginRespectsLimit(s: State, limit: nat, t: Thread, ttl: nat, idle: nat)
    requires Inv(s) && t in s.seen && limit > 0
    ensures var s' := Step(s, limit, CreateSession(t, ttl, idle)).value;
            var user, all := s.seen[t].user, NewSession(s, t, ttl, idle);
            && |Live(s'.sessions, user)| <= limit
            && s.nextSession in Live(s'.sessions, user)
            && Live(s'.sessions, user) <= Live(all, user)
            && (forall i, j ::
                  i in Live(s'.sessions, user) && j in Live(all, user) - Live(s'.sessions, user) && j in s'.sessions
                  ==> all[i].created > all[j].created || (all[i].created == all[j].created && i > j))
            && (forall other :: other != user ==> Live(s'.sessions, other) <= Live(s.sessions, other))
  {
    var user, all := s.seen[t].user, NewSession(s, t, ttl, idle);
    var capped := EnforceLimit(all, user, limit, s.now);
    var s' := Step(s, limit, CreateSession(t, ttl, idle)).value;
    LimitKeepsNewest(all, user, limit, s.now);
    assert Live(s'.sessions, user) <= Live(capped, user);
    SubsetSize(Live(s'.sessions, user), Live(capped, user));
    assert Ahead(all, Live(all, user), s.nextSession) == {};
    assert s.nextSession in FirstRows(all, Live(all, user), limit);
    forall i, j | i in Live(s'.sessions, user) && j in Live(all, user) - Live(s'.sessions, user) && j in s'.sessions
      ensures all[i].created > all[j].created || (all[i].created == all[j].created && i > j)
    {
      assert i in Live(capped, user) && j in Live(all, user) - Live(capped, user);
      assert Newer(all, i, j);
    }
    forall other | other != user ensures Live(s'.sessions, other) <= Live(s.sessions, other) {
      assert Live(all, other) <= Live(s.sessions, other);
    }
  }

  lemma StepKeepsCap(s: State, limit: nat, e: Event)
    requires Inv(s) && Capped(s, limit) && limit > 0 && Step(s, limit, e).Some?
    ensures Capped(Step(s, limit, e).value, limit)
  {
    var s' := Step(s, limit, e).value;
    if e.CreateSession? {
      LoginRespectsLimit(s, limit, e.thread, e.ttl, e.idle);
      forall u ensures |Live(s'.sessions, u)| <= limit {
        if u != s.seen[e.thread].user { SubsetSize(Live(s'.sessions, u), Live(s.sessions, u)); }
      }
    } else {
      OtherEventsDerive(s, limit, e);
      forall u ensures |Live(s'.sessions, u)| <= limit {
        DerivedKeepsLive(s'.sessions, s.sessions, u);
        SubsetSize(Live(s'.sessions, u), Live(s.sessions, u));
      }
    }
  }

  /** With each login one transaction, no user ever has more live sessions than the limit. */
  lemma {:induction false} RunsStayCapped(s: State, limit: nat, es: seq<Event>)
    requires Inv(s) && Capped(s, limit) && limit > 0 && Run(s, limit, es).Some?
    ensures Capped(Run(s, limit, es).value, limit)
    decreases |es|
  {
    if es != [] {
      StepKeepsInv(s, limit, es[0]);
      StepKeepsCap(s, limit, es[0]);
      RunsStayCapped(Step(s, limit, es[0]).value, limit, es[1..]);
    }
  }

  // ---------------------------------------------------------------- the table as the repository updates it

  class SessionStore {
    var table: Table
    var next: SessionId

    constructor ()
      ensures table == map[] && next == 0
    {
      table, next := map[], 0;
    }

    /** revoke_all_for_user: returns how many sessions it revoked. */
    method RevokeAllForUser(user: UserId, now: int) returns (revoked: nat)
      modifies this
      ensures table == RevokeAll(old(table), user, now) && next == old(next)
      ensures revoked == |Live(old(table), user)| && Live(table, user) == {}
      ensures table.Keys == old(table).Keys
      ensures forall i :: i in table ==>
                table[i] == if old(table)[i].user == user && old(table)[i].revoked == None
                            then old(table)[i].(revoked := Some(now)) else old(table)[i]
    {
      var live := Live(table, user);
      revoked := |live|;
      table := map i | i in table :: if i in live then table[i].(revoked := Some(now)) else table[i];
    }

    /** The statements of create_login_session on the session table, in order. */
    method CreateLoginSession(row: Row, limit: nat, now: int, ttl: nat, idle: nat) returns (id: SessionId)
      requires limit > 0
      requires forall i :: i in table ==> i < next && table[i].created <= now
      modifies this
      ensures id == old(next) && next == id + 1
      ensures id in Live(table, row.user) && |Live(table, row.user)| <= limit
      ensures table[id] == Session(row.user, row.version, now, now + ttl, now, idle, None)
      ensures forall i :: i in table && i != id ==> i in old(table) && table[i].version == old(table)[i].version
      ensures forall i ::
                i in old(table) && old(table)[i].user != row.user && old(table)[i].revoked == None
                && old(table)[i].expires >= now
                ==> i in table && table[i] == old(table)[i]
    {
      id := next;
      next := next + 1;
      table := table[id := Session(row.user, row.version, now, now + ttl, now, idle, None)];
      LimitKeepsNewest(table, row.user, limit, now);
      assert Ahead(table, Live(table, row.user), id) == {};
      var all := table;
      table := EnforceLimit(table, row.user, limit, now);
      var capped := table;
      table := PruneSessions(table, now);
      assert Live(table, row.user) <= Live(capped, row.user);
      SubsetSize(Live(table, row.user), Live(capped, row.user));
    }
  }
}
