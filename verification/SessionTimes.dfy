/**
 How long a session lasts: until its lifetime or its idle time has passed, until it is revoked, and only while its
 account may log in; and as long as none of these happens it does authenticate.
 */
module SessionTimes {
  import opened Prelude
  import opened Sessions

  // ---------------------------------------------------------------- lifetime and idle time

  /** Session `i`, if it still exists, has this user, expiry and idle time, and its id is never given again. */
  ghost predicate Fixed(s: State, i: SessionId, user: UserId, expires: int, idle: nat) {
    && i < s.nextSession
    && (i in s.sessions ==>
          s.sessions[i].user == user && s.sessions[i].expires == expires && s.sessions[i].idle == idle)
  }

  lemma StepKeepsFixed(s: State, limit: nat, e: Event, i: SessionId, user: UserId, expires: int, idle: nat)
    requires Fixed(s, i, user, expires, idle) && Step(s, limit, e).Some?
    ensures Fixed(Step(s, limit, e).value, i, user, expires, idle)
  {}

  lemma {:induction false} RunKeepsFixed(s: State, limit: nat, es: seq<Event>, i: SessionId, user: UserId,
      expires: int, idle: nat)
    requires Fixed(s, i, user, expires, idle) && Run(s, limit, es).Some?
    ensures Fixed(Run(s, limit, es).value, i, user, expires, idle)
    decreases |es|
  {
    if es != [] {
      StepKeepsFixed(s, limit, es[0], i, user, expires, idle);
      RunKeepsFixed(Step(s, limit, es[0]).value, limit, es[1..], i, user, expires, idle);
    }
  }

  /** A session never authenticates once `ttl` seconds have passed since the login that created it. */
  lemma NeverAfterLifetime(s: State, limit: nat, t: Thread, ttl: nat, idle: nat, es: seq<Event>, m: State)
    requires t in s.seen && Run(Step(s, limit, CreateSession(t, ttl, idle)).value, limit, es) == Some(m)
    requires m.now >= s.now + ttl
    ensures !Authenticates(m, s.nextSession)
  {
    RunKeepsFixed(Step(s, limit, CreateSession(t, ttl, idle)).value, limit, es, s.nextSession, s.seen[t].user,
                  s.now + ttl, idle);
  }

  /** Session `i`, if it still exists, was last seen no later than `at`. */
  ghost predicate SeenBy(s: State, i: SessionId, at: int) {
    i < s.nextSession && (i in s.sessions ==> s.sessions[i].lastSeen <= at)
  }

  lemma {:induction false} UntouchedStaysUnseen(s: State, limit: nat, es: seq<Event>, i: SessionId, at: int)
    requires SeenBy(s, i, at) && Run(s, limit, es).Some? && forall e :: e in es ==> e != Touch(i)
    ensures SeenBy(Run(s, limit, es).value, i, at)
    decreases |es|
  {
    if es != [] {
      assert es[0] in es && forall e :: e in es[1..] ==> e in es;
      UntouchedStaysUnseen(Step(s, limit, es[0]).value, limit, es[1..], i, at);
    }
  }

  /** Nobody was seen in the future. */
  ghost predicate SeenInPast(s: State) {
    forall i :: i in s.sessions ==> i < s.nextSession && s.sessions[i].lastSeen <= s.now
  }

  lemma {:induction false} RunKeepsSeenInPast(s: State, limit: nat, es: seq<Event>)
    requires SeenInPast(s) && Run(s, limit, es).Some?
    ensures SeenInPast(Run(s, limit, es).value)
    decreases |es|
  {
    if es != [] { RunKeepsSeenInPast(Step(s, limit, es[0]).value, limit, es[1..]); }
  }

  /** Past its lifetime or its idle time, or revoked. */
  ghost predicate Over(s: State, i: SessionId) {
    && i < s.nextSession
    && (i in s.sessions ==>
          || s.sessions[i].revoked.Some? || s.sessions[i].expires <= s.now
          || s.sessions[i].lastSeen + s.sessions[i].idle <= s.now)
  }

  /** What is over stays over: no request revives a session. */
  lemma {:induction false} OverStaysOver(s: State, limit: nat, es: seq<Event>, i: SessionId)
    requires Over(s, i) && Run(s, limit, es).Some?
    ensures Over(Run(s, limit, es).value, i) && !Authenticates(Run(s, limit, es).value, i)
    decreases |es|
  {
    if es != [] { OverStaysOver(Step(s, limit, es[0]).value, limit, es[1..], i); }
  }

  /**
   A session does not authenticate when `idle` seconds have passed without a request of its own, and never again
   after that: `used` is what happened up to its creation or last request, `quiet` what happened since, `later` what
   follows.
   */
  lemma NeverAfterIdleTime(s: State, limit: nat, t: Thread, ttl: nat, idle: nat, used: seq<Event>, m: State,
      quiet: seq<Event>, m': State, later: seq<Event>, m'': State)
    requires SeenInPast(s) && t in s.seen
    requires Run(Step(s, limit, CreateSession(t, ttl, idle)).value, limit, used) == Some(m)
    requires Run(m, limit, quiet) == Some(m') && (forall e :: e in quiet ==> e != Touch(s.nextSession))
    requires m'.now >= m.now + idle && Run(m', limit, later) == Some(m'')
    ensures !Authenticates(m', s.nextSession) && !Authenticates(m'', s.nextSession)
  {
    var i, s1 := s.nextSession, Step(s, limit, CreateSession(t, ttl, idle)).value;
    RunKeepsSeenInPast(s1, limit, used);
    RunKeepsFixed(s1, limit, used, i, s.seen[t].user, s.now + ttl, idle);
    UntouchedStaysUnseen(m, limit, quiet, i, m.now);
    RunKeepsFixed(m, limit, quiet, i, s.seen[t].user, s.now + ttl, idle);
    OverStaysOver(m', limit, later, i);
  }

  // ---------------------------------------------------------------- revocation

  ghost predicate Ended(s: State, i: SessionId) {
    i < s.nextSession && (i in s.sessions ==> s.sessions[i].revoked.Some?)
  }

  lemma {:induction false} EndedNeverAuthenticates(s: State, limit: nat, es: seq<Event>, i: SessionId)
    requires Ended(s, i) && Run(s, limit, es).Some?
    ensures Ended(Run(s, limit, es).value, i) && !Authenticates(Run(s, limit, es).value, i)
    decreases |es|
  {
    if es != [] { EndedNeverAuthenticates(Step(s, limit, es[0]).value, limit, es[1..], i); }
  }

  /** Logout by its user, revocation of all the user's sessions and a password change each end a session for good. */
  lemma NeverAfterRevocation(s: State, limit: nat, i: SessionId, e: Event, es: seq<Event>, m: State)
    requires Inv(s) && i in s.sessions && Step(s, limit, e).Some?
    requires var user := s.sessions[i].user;
             e == Logout(i, user) || e == RevokeUser(user) || e == ChangePassword(user)
    requires Run(Step(s, limit, e).value, limit, es) == Some(m)
    ensures !Authenticates(m, i)
  {
    EndedNeverAuthenticates(Step(s, limit, e).value, limit, es, i);
  }

  /** Nobody can log another user's session out. */
  lemma ForeignLogoutChangesNothing(s: State, limit: nat, i: SessionId, user: UserId)
    requires i !in s.sessions || s.sessions[i].user != user
    ensures Step(s, limit, Logout(i, user)) == Some(s)
  {}

  // ---------------------------------------------------------------- the account

  predicate Barred(s: State, user: UserId) {
    user in s.users && (!s.users[user].active || s.users[user].deleted || s.users[user].mfaMissing)
  }

  predicate Readmits(e: Event, user: UserId) {
    e.SetAccount? && e.user == user
  }

  lemma {:induction false} BarredStays(s: State, limit: nat, es: seq<Event>, user: UserId)
    requires Barred(s, user) && Run(s, limit, es).Some? && forall e :: e in es ==> !Readmits(e, user)
    ensures Barred(Run(s, limit, es).value, user)
    decreases |es|
  {
    if es != [] {
      assert es[0] in es;
      BarredStays(Step(s, limit, es[0]).value, limit, es[1..], user);
    }
  }

  /** From the moment an account is inactive, deleted or lacks a required factor, until it is changed again. */
  lemma NeverWhileBarred(s: State, limit: nat, user: UserId, active: bool, deleted: bool, mfaMissing: bool,
      es: seq<Event>, m: State, i: SessionId)
    requires !active || deleted || mfaMissing
    requires Run(Step(s, limit, SetAccount(user, active, deleted, mfaMissing)).value, limit, es) == Some(m)
    requires forall e :: e in es ==> !Readmits(e, user)
    requires i in m.sessions && m.sessions[i].user == user
    ensures !Authenticates(m, i)
  {
    BarredStays(Step(s, limit, SetAccount(user, active, deleted, mfaMissing)).value, limit, es, user);
  }

  // ---------------------------------------------------------------- as long as none of these happens

  /** The event concerns the user: its account, its sessions or another login of it. */
  predicate Concerns(s: State, e: Event, user: UserId) {
    match e
    case CreateSession(t, _, _) => t in s.seen && s.seen[t].user == user
    case ChangePassword(u) => u == user
    case RevokeUser(u) => u == user
    case Logout(_, u) => u == user
    case SetAccount(u, _, _, _) => u == user
    case _ => false
  }

  ghost predicate LeavesAlone(s: State, limit: nat, es: seq<Event>, user: UserId)
    decreases |es|
  {
    es == [] ||
    (!Concerns(s, es[0], user)
     && (Step(s, limit, es[0]).Some? ==> LeavesAlone(Step(s, limit, es[0]).value, limit, es[1..], user)))
  }

  /** The session is there, unrevoked and current, seen at `seen` or later, and its account may log in. */
  ghost predicate Good(s: State, i: SessionId, user: UserId, expires: int, idle: nat, seen: int) {
    && i < s.nextSession && i in s.sessions
    && s.sessions[i].user == user && s.sessions[i].expires == expires && s.sessions[i].idle == idle
    && s.sessions[i].revoked == None && s.sessions[i].lastSeen >= seen
    && user in s.users && s.sessions[i].version == s.users[user].version && !Barred(s, user)
  }

  lemma StepKeepsGood(s: State, limit: nat, e: Event, i: SessionId, user: UserId, expires: int, idle: nat, seen: int)
    requires Good(s, i, user, expires, idle, seen) && s.now < expires && seen <= s.now
    requires !Concerns(s, e, user) && Step(s, limit, e).Some?
    ensures Good(Step(s, limit, e).value, i, user, expires, idle, seen)
  {}

  lemma {:induction false} TimeGrows(s: State, limit: nat, es: seq<Event>)
    requires Run(s, limit, es).Some?
    ensures s.now <= Run(s, limit, es).value.now
    decreases |es|
  {
    if es != [] { TimeGrows(Step(s, limit, es[0]).value, limit, es[1..]); }
  }

  lemma {:induction false} RunKeepsGood(s: State, limit: nat, es: seq<Event>, i: SessionId, user: UserId,
      expires: int, idle: nat, seen: int)
    requires Good(s, i, user, expires, idle, seen) && seen <= s.now && LeavesAlone(s, limit, es, user)
    requires Run(s, limit, es).Some? && Run(s, limit, es).value.now < expires
    ensures Good(Run(s, limit, es).value, i, user, expires, idle, seen)
    decreases |es|
  {
    if es != [] {
      TimeGrows(s, limit, es);
      StepKeepsGood(s, limit, es[0], i, user, expires, idle, seen);
      RunKeepsGood(Step(s, limit, es[0]).value, limit, es[1..], i, user, expires, idle, seen);
    }
  }

  /** A login from a current row of an account that may log in creates a good session. */
  lemma LoginIsGood(s: State, limit: nat, t: Thread, ttl: nat, idle: nat)
    requires Inv(s) && limit > 0 && t in s.seen && s.seen[t].user in s.users && !Barred(s, s.seen[t].user)
    requires s.seen[t].version == s.users[s.seen[t].user].version
    ensures Good(Step(s, limit, CreateSession(t, ttl, idle)).value, s.nextSession, s.seen[t].user, s.now + ttl, idle,
                 s.now)
  {
    LoginRespectsLimit(s, limit, t, ttl, idle);
  }

  /**
   A session created from a current row of an account that may log in authenticates until its lifetime or its idle
   time is over, whatever happens to other users meanwhile.
   */
  lemma AuthenticatesUntilThen(s: State, limit: nat, t: Thread, ttl: nat, idle: nat, es: seq<Event>, m: State)
    requires Inv(s) && limit > 0 && t in s.seen && s.seen[t].user in s.users && !Barred(s, s.seen[t].user)
    requires s.seen[t].version == s.users[s.seen[t].user].version
    requires Run(Step(s, limit, CreateSession(t, ttl, idle)).value, limit, es) == Some(m)
    requires LeavesAlone(Step(s, limit, CreateSession(t, ttl, idle)).value, limit, es, s.seen[t].user)
    requires m.now < s.now + ttl && m.now < s.now + idle
    ensures Authenticates(m, s.nextSession)
  {
    LoginIsGood(s, limit, t, ttl, idle);
    RunKeepsGood(Step(s, limit, CreateSession(t, ttl, idle)).value, limit, es, s.nextSession, s.seen[t].user,
                 s.now + ttl, idle, s.now);
  }

  /** A request of its own puts the idle time off: a minute later at most, the session counts as seen by it. */
  lemma RequestKeepsAlive(s: State, limit: nat, i: SessionId)
    requires Authenticates(s, i)
    ensures var s' := Step(s, limit, Touch(i));
            && s'.Some? && i in s'.value.sessions && s'.value.sessions[i].lastSeen >= s.now - 60
            && Authenticates(s'.value, i)
  {}
}
