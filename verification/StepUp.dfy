/**
 Step-up authentication: a re-authentication issues a grant bound to one session, user and scope; a
 protected handler spends the grant before it mutates anything. Re-authentication, issue, spending and
 the mutation itself are separate steps of concurrent requests. Tokens stand for their hashes.
 */
module StepUp {
  import opened Prelude

  type UserId = nat
  type SessionId = nat
  type Thread = nat
  type Token = string

  const TOKEN_TTL := 300

  datatype Scope =
    | PasswordChange | UsersSensitive | UsersRoles | UsersDelete | RolesSensitive | RolesPermissions | RolesDelete
    | DepartmentsWrite | DepartmentsDelete

  datatype Mutation =
    | ChangePassword | CreateSensitiveUser | UpdateSensitiveUser | DeleteUser | BatchDeleteUsers
    | AssignRoles | BatchAssignRoles
    | CreateRoleWithPermissions | UpdateSensitiveRole | DeleteRole | PutPermissions
    | CreateDepartment | UpdateDepartment | DeleteDepartment

  /** The scope each handler asks for. */
  function ScopeFor(m: Mutation): Scope {
    match m
    case ChangePassword => PasswordChange
    case CreateSensitiveUser => UsersSensitive
    case UpdateSensitiveUser => UsersSensitive
    case DeleteUser => UsersDelete
    case BatchDeleteUsers => UsersDelete
    case AssignRoles => UsersRoles
    case BatchAssignRoles => UsersRoles
    case CreateRoleWithPermissions => RolesPermissions
    case UpdateSensitiveRole => RolesSensitive
    case DeleteRole => RolesDelete
    case PutPermissions => RolesPermissions
    case CreateDepartment => DepartmentsWrite
    case UpdateDepartment => DepartmentsWrite
    case DeleteDepartment => DepartmentsDelete
  }

  /** What a grant of each scope is good for, read from the side of the grant. */
  predicate Permits(scope: Scope, m: Mutation) {
    match scope
    case PasswordChange => m.ChangePassword?
    case UsersSensitive => m.CreateSensitiveUser? || m.UpdateSensitiveUser?
    case UsersRoles => m.AssignRoles? || m.BatchAssignRoles?
    case UsersDelete => m.DeleteUser? || m.BatchDeleteUsers?
    case RolesSensitive => m.UpdateSensitiveRole?
    case RolesPermissions => m.CreateRoleWithPermissions? || m.PutPermissions?
    case RolesDelete => m.DeleteRole?
    case DepartmentsWrite => m.CreateDepartment? || m.UpdateDepartment?
    case DepartmentsDelete => m.DeleteDepartment?
  }

  /** A handler asks for the one scope that permits its mutation. */
  lemma ScopeForPermits(scope: Scope, m: Mutation)
    ensures ScopeFor(m) == scope <==> Permits(scope, m)
  {}

  /** `issue` is the position of the grant in the history of issued grants. */
  datatype Grant = Grant(session: SessionId, user: UserId, scope: Scope, expires: int, consumed: Option<int>,
      issue: nat)
  datatype Issued = Issued(session: SessionId, user: UserId, scope: Scope, at: int, proof: nat)
  datatype Proof = Proof(user: UserId, counter: Option<nat>)
  datatype Done = Done(mutation: Mutation, session: SessionId, user: UserId, spentAt: int, issue: nat)

  datatype Pc =
    | Reauthenticated(proof: nat)
    | Cleared(mutation: Mutation, session: SessionId, user: UserId, spentAt: int, issue: nat)

  datatype State = State(
    now: int,
    totpUsers: set<UserId>,
    lastCounter: map<UserId, nat>,
    tokens: map<Token, Grant>,
    threads: map<Thread, Pc>,
    proofs: seq<Proof>,
    issued: seq<Issued>,
    done: seq<Done>)

  const INITIAL := State(0, {}, map[], map[], map[], [], [], [])

  datatype Event =
    | Advance(seconds: nat)
    | EnableTotp(user: UserId)
    | Reauthenticate(thread: Thread, user: UserId, counter: Option<nat>)
    | Issue(thread: Thread, session: SessionId, user: UserId, scope: Scope, token: Token)
    | Spend(thread: Thread, token: Token, mutation: Mutation, session: SessionId, user: UserId)
    | Mutate(thread: Thread)
    | Drop(thread: Thread)

  /** verify_reauthentication after the password: a TOTP user's counter must exceed every one used before. */
  predicate ProofAccepted(s: State, user: UserId, counter: Option<nat>) {
    if user in s.totpUsers then counter.Some? && (user in s.lastCounter ==> s.lastCounter[user] < counter.value)
    else counter == None
  }

  function PruneTokens(s: State): map<Token, Grant> {
    map k | k in s.tokens && !(s.tokens[k].expires < s.now - DAY)
            && !(s.tokens[k].consumed.Some? && s.tokens[k].consumed.value < s.now - DAY) :: s.tokens[k]
  }

  /** The WHERE clause of the conditional UPDATE that spends a grant. */
  predicate Spendable(s: State, token: Token, session: SessionId, user: UserId, scope: Scope) {
    && token in s.tokens
    && var g := s.tokens[token];
       g.session == session && g.user == user && g.scope == scope && g.consumed == None && g.expires > s.now
  }

  function Step(s: State, e: Event): Option<State> {
    match e
    case Advance(d) => Some(s.(now := s.now + d))
    case EnableTotp(u) => Some(s.(totpUsers := s.totpUsers + {u}))
    case Reauthenticate(t, user, counter) =>
      if t in s.threads || !ProofAccepted(s, user, counter) then None
      else Some(s.(lastCounter := if counter.Some? then s.lastCounter[user := counter.value] else s.lastCounter,
                   proofs := s.proofs + [Proof(user, counter)],
                   threads := s.threads[t := Reauthenticated(|s.proofs|)]))
    case Issue(t, session, user, scope, token) =>
      if t !in s.threads || !s.threads[t].Reauthenticated? || s.threads[t].proof >= |s.proofs|
         || s.proofs[s.threads[t].proof].user != user || token in PruneTokens(s) then None
      else Some(s.(tokens := PruneTokens(s)[token := Grant(session, user, scope, s.now + TOKEN_TTL, None, |s.issued|)],
                   issued := s.issued + [Issued(session, user, scope, s.now, s.threads[t].proof)],
                   threads := s.threads - {t}))
    case Spend(t, token, m, session, user) =>
      if t in s.threads || !Spendable(s, token, session, user, ScopeFor(m)) then None
      else Some(s.(tokens := s.tokens[token := s.tokens[token].(consumed := Some(s.now))],
                   threads := s.threads[t := Cleared(m, session, user, s.now, s.tokens[token].issue)]))
    case Mutate(t) =>
      if t !in s.threads || !s.threads[t].Cleared? then None
      else
        var p := s.threads[t];
        Some(s.(done := s.done + [Done(p.mutation, p.session, p.user, p.spentAt, p.issue)], threads := s.threads - {t}))
    case Drop(t) => Some(s.(threads := s.threads - {t}))
  }

  function Run(s: State, es: seq<Event>): Option<State>
    decreases |es|
  {
    if es == [] then Some(s)
    else
      var s' := Step(s, es[0]);
      if s'.None? then None else Run(s'.value, es[1..])
  }

  // ---------------------------------------------------------------- the invariant

  /** What can be spent, has been spent by a running request, or has been spent by a finished one. */
  datatype Use = Unspent(token: Token) | Running(thread: Thread) | Finished(index: nat)

  ghost predicate Uses(s: State, k: Use, issue: nat) {
    match k
    case Unspent(x) => x in s.tokens && s.tokens[x].consumed == None && s.tokens[x].issue == issue
    case Running(t) => t in s.threads && s.threads[t].Cleared? && s.threads[t].issue == issue
    case Finished(i) => i < |s.done| && s.done[i].issue == issue
  }

  ghost predicate OneUse(s: State) {
    forall k1: Use, k2: Use, i: nat :: Uses(s, k1, i) && Uses(s, k2, i) ==> k1 == k2
  }

  /** Spent by the session, user and scope it was issued for, within the lifetime of the grant. */
  predicate FromIssue(issued: seq<Issued>, session: SessionId, user: UserId, scope: Scope, spentAt: int, issue: nat) {
    && issue < |issued|
    && issued[issue].session == session && issued[issue].user == user && issued[issue].scope == scope
    && issued[issue].at <= spentAt < issued[issue].at + TOKEN_TTL
  }

  predicate GrantMatches(issued: seq<Issued>, g: Grant) {
    && g.issue < |issued|
    && issued[g.issue].session == g.session && issued[g.issue].user == g.user && issued[g.issue].scope == g.scope
    && g.expires == issued[g.issue].at + TOKEN_TTL
  }

  ghost predicate GrantsOk(s: State) {
    && (forall k :: k in s.tokens ==> GrantMatches(s.issued, s.tokens[k]))
    && (forall i :: 0 <= i < |s.issued| ==> s.issued[i].at <= s.now)
  }

  predicate ClearedOk(issued: seq<Issued>, p: Pc) {
    p.Cleared? ==> FromIssue(issued, p.session, p.user, ScopeFor(p.mutation), p.spentAt, p.issue)
  }

  predicate DoneOk(issued: seq<Issued>, d: Done) {
    FromIssue(issued, d.session, d.user, ScopeFor(d.mutation), d.spentAt, d.issue)
  }

  ghost predicate SpentOk(s: State) {
    && (forall t :: t in s.threads ==> ClearedOk(s.issued, s.threads[t]))
    && (forall i :: 0 <= i < |s.done| ==> DoneOk(s.issued, s.done[i]))
  }

  /** Every grant rests on its own re-authentication of the same user. */
  ghost predicate ProofsOk(s: State) {
    && (forall i :: 0 <= i < |s.issued| ==>
        s.issued[i].proof < |s.proofs| && s.proofs[s.issued[i].proof].user == s.issued[i].user)
    && (forall i, j :: 0 <= i < j < |s.issued| ==> s.issued[i].proof != s.issued[j].proof)
    && (forall t :: t in s.threads && s.threads[t].Reauthenticated? ==>
          && s.threads[t].proof < |s.proofs|
          && forall i :: 0 <= i < |s.issued| ==> s.issued[i].proof != s.threads[t].proof)
    && (forall t1, t2 ::
          t1 in s.threads && t2 in s.threads && t1 != t2
          && s.threads[t1].Reauthenticated? && s.threads[t2].Reauthenticated?
          ==> s.threads[t1].proof != s.threads[t2].proof)
  }

  /** The counters one user re-authenticated with increase strictly. */
  ghost predicate CountersIncrease(proofs: seq<Proof>) {
    forall i, j :: 0 <= i < j < |proofs| && SameTotpUser(proofs[i], proofs[j]) ==>
        proofs[i].counter.value < proofs[j].counter.value
  }

  predicate SameTotpUser(a: Proof, b: Proof) {
    a.user == b.user && a.counter.Some? && b.counter.Some?
  }

  ghost predicate CountersOk(s: State) {
    && CountersIncrease(s.proofs)
    && (forall i :: 0 <= i < |s.proofs| && s.proofs[i].counter.Some? ==>
          s.proofs[i].user in s.lastCounter && s.proofs[i].counter.value <= s.lastCounter[s.proofs[i].user])
  }

  ghost predicate Inv(s: State) {
    OneUse(s) && GrantsOk(s) && SpentOk(s) && ProofsOk(s) && CountersOk(s)
  }

  lemma IssueKeepsUses(s: State, e: Event)
    requires e.Issue? && Inv(s) && Step(s, e).Some?
    ensures OneUse(Step(s, e).value)
  {
    var s' := Step(s, e).value;
    forall k: Use, i: nat | Uses(s', k, i) && k != Unspent(e.token) ensures Uses(s, k, i) && i < |s.issued| {}
  }

  /** A grant moves on from one user to the next: from unspent to running, from running to finished. */
  lemma HandOver(s: State, s': State, was: Use, now: Use, issue: nat)
    requires OneUse(s) && Uses(s, was, issue)
    requires forall k: Use, i: nat :: Uses(s', k, i) && k != now ==> Uses(s, k, i) && k != was
    requires forall i: nat :: Uses(s', now, i) ==> i == issue
    ensures OneUse(s')
  {}

  lemma StepKeepsUses(s: State, e: Event)
    requires Inv(s) && Step(s, e).Some?
    ensures OneUse(Step(s, e).value)
  {
    var s' := Step(s, e).value;
    match e
    case Issue(_, _, _, _, _) => IssueKeepsUses(s, e);
    case Spend(t, token, m, session, user) => HandOver(s, s', Unspent(token), Running(t), s.tokens[token].issue);
    case Mutate(t) => HandOver(s, s', Running(t), Finished(|s.done|), s.threads[t].issue);
    case _ =>
      forall k: Use, i: nat | Uses(s', k, i) ensures Uses(s, k, i) {}
  }

  lemma StepKeepsGrants(s: State, e: Event)
    requires GrantsOk(s) && Step(s, e).Some?
    ensures GrantsOk(Step(s, e).value)
  {}

  lemma StepKeepsSpent(s: State, e: Event)
    requires GrantsOk(s) && SpentOk(s) && Step(s, e).Some?
    ensures SpentOk(Step(s, e).value)
  {}

  lemma StepKeepsCounters(s: State, e: Event)
    requires CountersOk(s) && Step(s, e).Some?
    ensures CountersOk(Step(s, e).value)
  {}

  lemma ReauthenticateKeepsProofs(s: State, e: Event)
    requires e.Reauthenticate? && ProofsOk(s) && Step(s, e).Some?
    ensures ProofsOk(Step(s, e).value)
  {}

  lemma IssueKeepsProofs(s: State, e: Event)
    requires e.Issue? && ProofsOk(s) && Step(s, e).Some?
    ensures ProofsOk(Step(s, e).value)
  {
    assert Step(s, e).value.issued[|s.issued|].proof == s.threads[e.thread].proof;
  }

  lemma StepKeepsProofs(s: State, e: Event)
    requires ProofsOk(s) && Step(s, e).Some?
    ensures ProofsOk(Step(s, e).value)
  {
    var s' := Step(s, e).value;
    match e
    case Reauthenticate(_, _, _) => ReauthenticateKeepsProofs(s, e);
    case Issue(_, _, _, _, _) => IssueKeepsProofs(s, e);
    case _ =>
      assert s'.proofs == s.proofs && s'.issued == s.issued;
  }

  lemma {:induction false} RunKeepsInv(s: State, es: seq<Event>)
    requires Inv(s) && Run(s, es).Some?
    ensures Inv(Run(s, es).value)
    decreases |es|
  {
    if es != [] {
      StepKeepsUses(s, es[0]);
      StepKeepsGrants(s, es[0]);
      StepKeepsSpent(s, es[0]);
      StepKeepsProofs(s, es[0]);
      StepKeepsCounters(s, es[0]);
      RunKeepsInv(Step(s, es[0]).value, es[1..]);
    }
  }

  /**
   In every interleaving each finished mutation rests on its own grant, issued for the same session, user
   and scope less than 300 seconds before it was spent, and each grant on its own re-authentication; the
   counters a TOTP user re-authenticated with are strictly increasing (section 5.2 of RFC 6238).
   */
  lemma MutationsRestOnOwnGrants(es: seq<Event>)
    requires Run(INITIAL, es).Some?
    ensures var s := Run(INITIAL, es).value;
            && (forall i :: 0 <= i < |s.done| ==>
                  var d := s.done[i];
                  && d.issue < |s.issued|
                  && var grant := s.issued[d.issue];
                     && grant.session == d.session && grant.user == d.user && Permits(grant.scope, d.mutation)
                     && grant.at <= d.spentAt < grant.at + 300)
            && (forall i, j :: 0 <= i < j < |s.done| ==> s.done[i].issue != s.done[j].issue)
            && (forall i, j :: 0 <= i < j < |s.issued| ==> s.issued[i].proof != s.issued[j].proof)
            && CountersIncrease(s.proofs)
  {
    RunKeepsInv(INITIAL, es);
    var s := Run(INITIAL, es).value;
    forall i | 0 <= i < |s.done|
      ensures s.done[i].issue < |s.issued| && Permits(s.issued[s.done[i].issue].scope, s.done[i].mutation)
    {
      assert DoneOk(s.issued, s.done[i]);
      ScopeForPermits(ScopeFor(s.done[i].mutation), s.done[i].mutation);
    }
    forall i, j | 0 <= i < j < |s.done| ensures s.done[i].issue != s.done[j].issue {
      assert Uses(s, Finished(i), s.done[i].issue) && Uses(s, Finished(j), s.done[j].issue);
    }
  }

  // ---------------------------------------------------------------- what a re-authentication takes

  /** A user with TOTP must present a code, later than every one used before; a user without it presents none. */
  lemma ReauthenticationTakes(s: State, t: Thread, user: UserId, counter: Option<nat>)
    ensures Step(s, Reauthenticate(t, user, counter)).Some?
       <==> && t !in s.threads
            && (user in s.totpUsers ==>
                  counter.Some? && (user in s.lastCounter ==> s.lastCounter[user] < counter.value))
            && (user !in s.totpUsers ==> counter.None?)
  {}

  /** From the moment a user has TOTP, every re-authentication of that user in any run comes with a code. */
  lemma {:induction false} TotpUsersPresentCodes(s: State, es: seq<Event>, user: UserId, i: nat)
    requires user in s.totpUsers && Run(s, es).Some? && |s.proofs| <= i < |Run(s, es).value.proofs|
    requires Run(s, es).value.proofs[i].user == user
    ensures Run(s, es).value.proofs[i].counter.Some?
    decreases |es|
  {
    if es != [] {
      var next := Step(s, es[0]).value;
      if i < |next.proofs| {
        ProofsStay(next, es[1..], i);
      } else {
        TotpUsersPresentCodes(next, es[1..], user, i);
      }
    }
  }

  lemma {:induction false} ProofsStay(s: State, es: seq<Event>, i: nat)
    requires i < |s.proofs| && Run(s, es).Some?
    ensures i < |Run(s, es).value.proofs| && Run(s, es).value.proofs[i] == s.proofs[i]
    decreases |es|
  {
    if es != [] { ProofsStay(Step(s, es[0]).value, es[1..], i); }
  }

  // ---------------------------------------------------------------- a grant can be spent for 300 seconds

  /** The unspent grant, as it was issued. */
  ghost predicate Fresh(s: State, token: Token, session: SessionId, user: UserId, scope: Scope, at: int) {
    && token in s.tokens && s.tokens[token].consumed == None && s.tokens[token].expires == at + 300
    && s.tokens[token].session == session && s.tokens[token].user == user && s.tokens[token].scope == scope
  }

  lemma {:induction false} TimeGrows(s: State, es: seq<Event>)
    requires Run(s, es).Some?
    ensures s.now <= Run(s, es).value.now
    decreases |es|
  {
    if es != [] { TimeGrows(Step(s, es[0]).value, es[1..]); }
  }

  lemma {:induction false} RunKeepsFresh(s: State, es: seq<Event>, token: Token, session: SessionId, user: UserId,
      scope: Scope, at: int)
    requires Fresh(s, token, session, user, scope, at)
    requires Run(s, es).Some? && Run(s, es).value.now < at + 300
    requires forall e :: e in es ==> !(e.Spend? && e.token == token)
    ensures Fresh(Run(s, es).value, token, session, user, scope, at)
    decreases |es|
  {
    if es != [] {
      assert es[0] in es && forall e :: e in es[1..] ==> e in es;
      TimeGrows(s, es);
      RunKeepsFresh(Step(s, es[0]).value, es[1..], token, session, user, scope, at);
    }
  }

  /**
   Whatever happens meanwhile, a grant that nobody has spent can be spent less than 300 seconds after its issue, by
   any handler its scope permits.
   */
  lemma SpendableUntilDeadline(s: State, e: Event, es: seq<Event>, m: State, t: Thread, mutation: Mutation)
    requires e.Issue? && Step(s, e).Some? && Run(Step(s, e).value, es) == Some(m)
    requires forall x :: x in es ==> !(x.Spend? && x.token == e.token)
    requires Permits(e.scope, mutation) && t !in m.threads && m.now < s.now + 300
    ensures Step(m, Spend(t, e.token, mutation, e.session, e.user)).Some?
  {
    RunKeepsFresh(Step(s, e).value, es, e.token, e.session, e.user, e.scope, s.now);
    ScopeForPermits(e.scope, mutation);
  }

  // ---------------------------------------------------------------- the statements of issue, consume and the handlers

  class Grants {
    var s: State

    constructor ()
      ensures s == INITIAL
    {
      s := INITIAL;
    }

    /** consume_reauth_totp_counter: the conditional UPDATE that refuses a counter used before. */
    method ConsumeReauthCounter(user: UserId, counter: nat) returns (accepted: bool)
      modifies this
      ensures accepted <==> (user in old(s).lastCounter ==> old(s).lastCounter[user] < counter)
      ensures s == if accepted then old(s).(lastCounter := old(s).lastCounter[user := counter]) else old(s)
      ensures user in s.lastCounter && counter <= s.lastCounter[user]
    {
      accepted := user !in s.lastCounter || s.lastCounter[user] < counter;
      if accepted {
        s := s.(lastCounter := s.lastCounter[user := counter]);
      }
    }

    /** issue, after the re-authentication of thread t: prune, then insert, in one transaction. */
    method IssueGrant(t: Thread, session: SessionId, user: UserId, scope: Scope, token: Token)
      requires Step(s, Issue(t, session, user, scope, token)).Some?
      modifies this
      ensures Some(s) == Step(old(s), Issue(t, session, user, scope, token))
      ensures Spendable(s, token, session, user, scope) && s.tokens[token].expires == s.now + 300
      ensures forall k :: k in s.tokens && k != token ==> k in old(s).tokens && s.tokens[k] == old(s).tokens[k]
      ensures forall k ::
                k in old(s).tokens && k != token && old(s).tokens[k].consumed == None
                && old(s).tokens[k].expires >= s.now
                ==> k in s.tokens
    {
      var proof := s.threads[t].proof;
      s := s.(tokens := PruneTokens(s), threads := s.threads - {t});
      var issue := |s.issued|;
      s := s.(tokens := s.tokens[token := Grant(session, user, scope, s.now + TOKEN_TTL, None, issue)],
              issued := s.issued + [Issued(session, user, scope, s.now, proof)]);
    }

    /** consume: after it, whoever asks, the grant cannot be spent. */
    method ConsumeGrant(token: Token, session: SessionId, user: UserId, scope: Scope) returns (ok: bool)
      modifies this
      ensures ok <==>
        && token in old(s).tokens && old(s).tokens[token].session == session && old(s).tokens[token].user == user
        && old(s).tokens[token].scope == scope
        && old(s).tokens[token].consumed == None && old(s).now < old(s).tokens[token].expires
      ensures ok == Spendable(old(s), token, session, user, scope)
      ensures ok ==> s == old(s).(tokens := old(s).tokens[token := old(s).tokens[token].(consumed := Some(s.now))])
      ensures !ok ==> s == old(s)
      ensures forall session', user', scope' :: ok ==> !Spendable(s, token, session', user', scope')
    {
      ok := token in s.tokens && s.tokens[token].session == session && s.tokens[token].user == user
            && s.tokens[token].scope == scope && s.tokens[token].consumed == None && s.tokens[token].expires > s.now;
      if ok {
        s := s.(tokens := s.tokens[token := s.tokens[token].(consumed := Some(s.now))]);
      }
    }

    /** A handler: the grant is spent first, and only then does the mutation run. */
    method Handle(t: Thread, token: Token, m: Mutation, session: SessionId, user: UserId) returns (ok: bool)
      requires t !in s.threads
      modifies this
      ensures ok <==>
        && token in old(s).tokens && old(s).tokens[token].session == session && old(s).tokens[token].user == user
        && Permits(old(s).tokens[token].scope, m)
        && old(s).tokens[token].consumed == None && old(s).now < old(s).tokens[token].expires
      ensures ok ==> |s.done| == |old(s).done| + 1 && s.done[|s.done| - 1].mutation == m
                     && token in s.tokens && s.tokens[token].consumed == Some(s.now)
      ensures ok ==> Step(old(s), Spend(t, token, m, session, user)).Some?
                     && Some(s) == Step(Step(old(s), Spend(t, token, m, session, user)).value, Mutate(t))
      ensures !ok ==> s == old(s)
    {
      if token in s.tokens { ScopeForPermits(s.tokens[token].scope, m); }
      ok := ConsumeGrant(token, session, user, ScopeFor(m));
      if ok {
        var now, issue := s.now, s.tokens[token].issue;
        assert s.threads[t := Cleared(m, session, user, now, issue)] - {t} == s.threads;
        s := s.(done := s.done + [Done(m, session, user, now, issue)]);
      }
    }
  }
}
