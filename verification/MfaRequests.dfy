/**
 The second-factor requests as the statements they issue, with the point each request has reached kept in the
 state. Run without interruption, every request is a run of the interleaving machine of MfaLogin, so what is
 proved there for all interleavings is about these statements.
 */
module MfaRequests {
  import opened Prelude
  import opened MfaLogin

  method InsertEach(kept: map<CodeId, Code>, user: UserId, first: CodeId, n: nat) returns (codes: map<CodeId, Code>)
    ensures codes == InsertCodes(kept, user, first, n)
  {
    codes := kept;
    for i := 0 to n
      invariant codes == InsertCodes(kept, user, first, i)
    {
      codes := codes[first + i := Code(user, false)];
    }
  }

  /** What one wrong answer does to a challenge: it is counted, and the fifth ends it. */
  predicate Counted(was: Challenge, row: Challenge, now: int) {
    && row.attempts == was.attempts + 1
    && row.user == was.user && row.kind == was.kind && row.expires == was.expires
    && row.consumed == if row.attempts >= 5 then Some(now) else was.consumed
  }

  class Database {
    var s: State

    constructor ()
      ensures s == INITIAL
    {
      s := INITIAL;
    }

    /**
     challenge_for_update: finds the row and locks it; the request then stands at `pc`. It finds nothing but a live
     challenge of that kind with attempts left, and once it has the row nobody can lock it again.
     */
    method ChallengeForUpdate(t: Thread, c: ChallengeId, kind: Kind, pc: Pc) returns (found: bool)
      modifies this
      ensures found ==> forall k: Kind, at: int :: !Lockable(s, c, k, at)
      ensures found && Inv(old(s)) ==> c in s.challenges && s.challenges[c].kind == kind
                                       && Holds(s, Open(c), s.challenges[c].lineage)
                                       && s.challenges[c].attempts < MAX_ATTEMPTS
      ensures forall d: ChallengeId, k: Kind, at: int :: d != c ==> Lockable(s, d, k, at) == Lockable(old(s), d, k, at)
      ensures found <==>
        && c in old(s).challenges && c !in old(s).locks && old(s).challenges[c].kind == kind
        && old(s).challenges[c].consumed == None && old(s).now < old(s).challenges[c].expires
      ensures found == Lockable(old(s), c, kind, old(s).now)
      ensures s == if found then old(s).(locks := old(s).locks[c := t], threads := old(s).threads[t := pc]) else old(s)
    {
      found := c in s.challenges && c !in s.locks && s.challenges[c].kind == kind
               && s.challenges[c].consumed == None && s.challenges[c].expires > s.now;
      if found {
        s := s.(locks := s.locks[c := t], threads := s.threads[t := pc]);
      }
    }

    method RecordChallengeFailure(c: ChallengeId) returns (locked: bool)
      requires c in s.challenges
      modifies this
      ensures s == RecordFailure(old(s), c)
      ensures s.challenges[c].attempts == old(s).challenges[c].attempts + 1
      ensures locked <==> s.challenges[c].attempts >= 5
      ensures s.challenges[c].consumed == if locked then Some(s.now) else old(s).challenges[c].consumed
      ensures forall d :: d in s.challenges && d != c ==>
                d in old(s).challenges && s.challenges[d] == old(s).challenges[d]
    {
      var row := s.challenges[c];
      var count := row.attempts + 1;
      var consumed := row.consumed;
      if count >= MAX_ATTEMPTS {
        consumed := Some(s.now);
      }
      s := s.(challenges := s.challenges[c := row.(attempts := count, consumed := consumed)],
              failed := s.failed[row.lineage := FailedIn(s, row.lineage) + 1]);
      return count >= MAX_ATTEMPTS;
    }

    method ConsumeChallenge(c: ChallengeId)
      requires c in s.challenges
      modifies this
      ensures s == Consume(old(s), c)
    {
      s := s.(challenges := s.challenges[c := s.challenges[c].(consumed := Some(s.now))]);
    }

    /** consume_recovery_code: true exactly when this call spends the code. */
    method ConsumeRecoveryCode(user: UserId, code: CodeId) returns (consumed: bool)
      modifies this
      ensures consumed <==> code in old(s).codes && old(s).codes[code].user == user && !old(s).codes[code].used
      ensures consumed == Spendable(old(s), Some(code), user)
      ensures s == if consumed
          then old(s).(codes := old(s).codes[code := Code(user, true)], spent := old(s).spent + [code])
                   else old(s)
      ensures !Spendable(s, Some(code), user)
    {
      consumed := code in s.codes && s.codes[code].user == user && !s.codes[code].used;
      if consumed {
        s := s.(codes := s.codes[code := s.codes[code].(used := true)], spent := s.spent + [code]);
      }
    }

    /** replace_recovery_codes after its DELETE has found `doomed`: one INSERT per new hash. */
    method ReplaceRecoveryCodes(user: UserId, doomed: set<CodeId>)
      modifies this
      ensures s == ReplaceCodes(old(s), user, doomed)
      ensures forall k :: k in s.codes <==>
                (k in old(s).codes && k !in doomed) || old(s).nextCode <= k < old(s).nextCode + 10
      ensures forall k :: k in s.codes ==>
                s.codes[k] == if old(s).nextCode <= k < old(s).nextCode + 10 then Code(user, false) else old(s).codes[k]
    {
      var kept := map c | c in s.codes && c !in doomed :: s.codes[c];
      var codes := InsertEach(kept, user, s.nextCode, RECOVERY_CODES);
      s := s.(codes := codes, nextCode := s.nextCode + RECOVERY_CODES);
    }

    /** Commit or rollback: the request's row locks go. */
    method Release(t: Thread)
      modifies this
      ensures s == Leave(old(s), t)
    {
      s := s.(threads := s.threads - {t}, locks := map c | c in s.locks && s.locks[c] != t :: s.locks[c]);
    }

    /** A wrong answer: count it and commit. */
    method RejectAnswer(t: Thread, c: ChallengeId, ghost start: State, ghost es: seq<Event>)
      returns (ghost es': seq<Event>)
      requires Run(start, es) == Some(s) && Step(s, Reject(t)).Some? && s.threads[t].challenge == c
      modifies this
      ensures es' == es + [Reject(t)] && Run(start, es') == Some(s) && s.sessions == old(s).sessions
      ensures c in s.challenges && Counted(old(s).challenges[c], s.challenges[c], s.now) && s.now == old(s).now
    {
      ghost var held := s;
      var _ := RecordChallengeFailure(c);
      Release(t);
      RunOne(start, es, Reject(t), held, s);
      es' := es + [Reject(t)];
    }

    /** The challenge is gone: the request ends without a trace. */
    method GiveUp(t: Thread, ghost start: State, ghost es: seq<Event>) returns (ghost es': seq<Event>)
      requires Run(start, es) == Some(s) && HasPc(s, t)
      modifies this
      ensures es' == es + [Drop(t)] && Run(start, es') == Some(s) && s.sessions == old(s).sessions
    {
      ghost var before := s;
      Release(t);
      RunOne(start, es, Drop(t), before, s);
      es' := es + [Drop(t)];
    }

    /** create_login_session for a request whose factor was accepted. */
    method MintSession(t: Thread, lineage: nat, code: Option<CodeId>, ghost start: State, ghost es: seq<Event>)
      returns (ghost es': seq<Event>)
      requires Run(start, es) == Some(s) && HasPc(s, t) && s.threads[t] == Pending(lineage, code)
      modifies this
      ensures es' == es + [Mint(t)] && Run(start, es') == Some(s)
      ensures s.sessions == old(s).sessions + [Session(lineage, code)] && s.codes == old(s).codes
      ensures s.challenges == old(s).challenges && s.now == old(s).now
    {
      ghost var pending := s;
      Release(t);
      s := s.(sessions := s.sessions + [Session(lineage, code)]);
      RunOne(start, es, Mint(t), pending, s);
      es' := es + [Mint(t)];
    }

    /** verify_totp_login and finish_passkey_authentication; `correct` is what the factor's check says. */
    method VerifyFactor(t: Thread, c: ChallengeId, purpose: Purpose, correct: bool)
      returns (session: bool, ghost es: seq<Event>)
      requires !HasPc(s, t) && (purpose.Totp? || purpose.PasskeyFinish?)
      modifies this
      ensures Run(old(s), es) == Some(s)
      ensures session <==>
        && correct
        && c in old(s).challenges && c !in old(s).locks
        && old(s).challenges[c].kind == (if purpose.Totp? then Login else PasskeyAuthentication)
        && old(s).challenges[c].consumed == None && old(s).now < old(s).challenges[c].expires
      ensures session ==> c in s.challenges && s.challenges[c].consumed == Some(s.now)
      ensures session <==> correct && Lockable(old(s), c, KindFor(purpose), old(s).now)
      ensures !correct && Lockable(old(s), c, KindFor(purpose), old(s).now)
        ==> c in s.challenges && Counted(old(s).challenges[c], s.challenges[c], s.now)
      ensures s.sessions == if session then old(s).sessions + [Session(old(s).challenges[c].lineage, None)]
          else old(s).sessions
    {
      es := [];
      ghost var start := s;
      var found := ChallengeForUpdate(t, c, KindFor(purpose), Holding(c, purpose));
      if !found {
        return false, es;
      }
      RunOne(start, es, Lock(t, c, purpose, s.now), start, s);
      es := es + [Lock(t, c, purpose, s.now)];
      if !correct {
        es := RejectAnswer(t, c, start, es);
        return false, es;
      }
      ghost var held := s;
      var lineage := s.challenges[c].lineage;
      ConsumeChallenge(c);
      Release(t);
      s := s.(threads := s.threads[t := Pending(lineage, None)]);
      RunOne(start, es, Accept(t), held, s);
      es := es + [Accept(t)];
      es := MintSession(t, lineage, None, start, es);
      return true, es;
    }

    /**
     verify_recovery_login without interruption; `presented` is the stored code whose hash the text matches, if any,
     and only unused codes of the challenge's user are tried.
     */
    method VerifyRecovery(t: Thread, c: ChallengeId, presented: Option<CodeId>)
      returns (session: bool, ghost es: seq<Event>)
      requires !HasPc(s, t)
      modifies this
      ensures Run(old(s), es) == Some(s)
      ensures session <==>
        && c in old(s).challenges && c !in old(s).locks && old(s).challenges[c].kind == Login
        && old(s).challenges[c].consumed == None && old(s).now < old(s).challenges[c].expires
        && presented.Some? && presented.value in old(s).codes
        && old(s).codes[presented.value].user == old(s).challenges[c].user && !old(s).codes[presented.value].used
      ensures session ==> presented.value in s.codes && s.codes[presented.value].used
      ensures session ==> c in s.challenges && s.challenges[c].consumed == Some(s.now)
      ensures session
          <==> Lockable(old(s), c, Login, old(s).now) && Spendable(old(s), presented, old(s).challenges[c].user)
      ensures session ==> !Spendable(s, presented, old(s).challenges[c].user)
      ensures s.sessions == if session then old(s).sessions + [Session(old(s).challenges[c].lineage, presented)]
          else old(s).sessions
    {
      es := [];
      ghost var start := s;
      if c !in s.challenges || s.challenges[c].kind != Login || s.challenges[c].consumed != None
          || s.challenges[c].expires <= s.now {
        return false, es;
      }
      var unused := presented.Some? && presented.value in s.codes
          && s.codes[presented.value] == Code(s.challenges[c].user, false);
      var code := if unused then presented else None;
      s := s.(threads := s.threads[t := Matched(c, code)]);
      RunOne(start, es, MatchCode(t, c, code), start, s);
      es := es + [MatchCode(t, c, code)];
      session, es := SpendMatched(t, c, code, start, es);
    }

    /**
     The transaction of verify_recovery_login, in whatever state it starts: a code matched before may meanwhile be
     spent or deleted, which counts as a wrong answer.
     */
    method SpendMatched(t: Thread, c: ChallengeId, code: Option<CodeId>, ghost start: State, ghost es: seq<Event>)
      returns (session: bool, ghost es': seq<Event>)
      requires Run(start, es) == Some(s) && HasPc(s, t) && s.threads[t] == Matched(c, code)
      modifies this
      ensures Run(start, es') == Some(s)
      ensures session <==>
        && c in old(s).challenges && c !in old(s).locks && old(s).challenges[c].kind == Login
        && old(s).challenges[c].consumed == None && old(s).now < old(s).challenges[c].expires
        && code.Some? && code.value in old(s).codes
        && old(s).codes[code.value].user == old(s).challenges[c].user && !old(s).codes[code.value].used
      ensures session ==> code.value in s.codes && s.codes[code.value].used
      ensures session ==> c in s.challenges && s.challenges[c].consumed == Some(s.now)
      ensures session <==> Lockable(old(s), c, Login, old(s).now) && Spendable(old(s), code, old(s).challenges[c].user)
      ensures session ==> !Spendable(s, code, old(s).challenges[c].user)
      ensures !session && Lockable(old(s), c, Login, old(s).now)
        ==> c in s.challenges && Counted(old(s).challenges[c], s.challenges[c], s.now)
      ensures s.sessions == if session then old(s).sessions + [Session(old(s).challenges[c].lineage, code)]
          else old(s).sessions
    {
      es' := es;
      ghost var matched := s;
      var found := ChallengeForUpdate(t, c, Login, Holding(c, Recovery(code)));
      if !found {
        es' := GiveUp(t, start, es');
        return false, es';
      }
      RunOne(start, es', Lock(t, c, Recovery(code), s.now), matched, s);
      es' := es' + [Lock(t, c, Recovery(code), s.now)];
      ghost var held := s;
      var user, lineage := s.challenges[c].user, s.challenges[c].lineage;
      var consumed := false;
      if code.Some? {
        consumed := ConsumeRecoveryCode(user, code.value);
      }
      if !consumed {
        es' := RejectAnswer(t, c, start, es');
        return false, es';
      }
      ConsumeChallenge(c);
      Release(t);
      s := s.(threads := s.threads[t := Pending(lineage, code)]);
      RunOne(start, es', Accept(t), held, s);
      es' := es' + [Accept(t)];
      es' := MintSession(t, lineage, code, start, es');
      return true, es';
    }

    /** verify_totp_enrollment: verify under the lock, roll back, lock again, replace the codes and consume. */
    method VerifyEnrolment(t: Thread, c: ChallengeId, correct: bool) returns (session: bool, ghost es: seq<Event>)
      requires !HasPc(s, t) && (forall d :: d in s.locks ==> s.locks[d] != t)
      modifies this
      ensures Run(old(s), es) == Some(s)
      ensures session <==>
        && correct
        && c in old(s).challenges && c !in old(s).locks && old(s).challenges[c].kind == TotpEnrollment
        && old(s).challenges[c].consumed == None && old(s).now < old(s).challenges[c].expires
      ensures session <==> correct && Lockable(old(s), c, TotpEnrollment, old(s).now)
      ensures !correct && Lockable(old(s), c, TotpEnrollment, old(s).now)
        ==> c in s.challenges && Counted(old(s).challenges[c], s.challenges[c], s.now)
      ensures s.sessions == if session then old(s).sessions + [Session(old(s).challenges[c].lineage, None)]
          else old(s).sessions
    {
      es := [];
      ghost var start := s;
      var found := ChallengeForUpdate(t, c, TotpEnrollment, Holding(c, Enrolment));
      if !found {
        return false, es;
      }
      RunOne(start, es, Lock(t, c, Enrolment, s.now), start, s);
      es := es + [Lock(t, c, Enrolment, s.now)];
      if !correct {
        es := RejectAnswer(t, c, start, es);
        return false, es;
      }
      es := RollBackVerified(t, c, start, es);
      session, es := CompleteEnrolmentOf(t, c, start, es);
    }

    method RollBackVerified(t: Thread, c: ChallengeId, ghost start: State, ghost es: seq<Event>)
      returns (ghost es': seq<Event>)
      requires Run(start, es) == Some(s) && HasPc(s, t) && s.threads[t] == Holding(c, Enrolment)
      modifies this
      ensures es' == es + [RollBack(t)] && Run(start, es') == Some(s)
      ensures s == Leave(old(s), t).(threads := Leave(old(s), t).threads[t := Verified(c)])
    {
      ghost var held := s;
      Release(t);
      s := s.(threads := s.threads[t := Verified(c)]);
      RunOne(start, es, RollBack(t), held, s);
      es' := es + [RollBack(t)];
    }

    /** The second transaction of an enrolment; it succeeds unless the challenge was consumed, locked or has expired. */
    method CompleteEnrolmentOf(t: Thread, c: ChallengeId, ghost start: State, ghost es: seq<Event>)
      returns (session: bool, ghost es': seq<Event>)
      requires Run(start, es) == Some(s) && HasPc(s, t) && s.threads[t] == Verified(c)
      modifies this
      ensures Run(start, es') == Some(s)
      ensures session <==>
        && c in old(s).challenges && c !in old(s).locks && old(s).challenges[c].kind == TotpEnrollment
        && old(s).challenges[c].consumed == None && old(s).now < old(s).challenges[c].expires
      ensures session == Lockable(old(s), c, TotpEnrollment, old(s).now)
      ensures s.sessions == if session then old(s).sessions + [Session(old(s).challenges[c].lineage, None)]
          else old(s).sessions
    {
      es' := es;
      ghost var verified := s;
      var found := ChallengeForUpdate(t, c, TotpEnrollment, Completing(c, None));
      if !found {
        es' := GiveUp(t, start, es');
        return false, es';
      }
      RunOne(start, es', LockAgain(t, s.now), verified, s);
      es' := es' + [LockAgain(t, s.now)];
      var lineage := s.challenges[c].lineage;
      es' := ReplaceAndConsume(t, c, start, es');
      es' := MintSession(t, lineage, None, start, es');
      session := true;
    }

    method ReplaceAndConsume(t: Thread, c: ChallengeId, ghost start: State, ghost es: seq<Event>)
      returns (ghost es': seq<Event>)
      requires Run(start, es) == Some(s) && HasPc(s, t) && s.threads[t] == Completing(c, None) && c in s.challenges
      modifies this
      ensures es' == es + [DeleteCodes(t)] + [CompleteEnrolment(t)] && Run(start, es') == Some(s)
      ensures HasPc(s, t) && s.threads[t] == Pending(old(s).challenges[c].lineage, None)
          && s.sessions == old(s).sessions
    {
      ghost var locked := s;
      var user, lineage := s.challenges[c].user, s.challenges[c].lineage;
      var doomed := UserCodes(s, user);
      s := s.(threads := s.threads[t := Completing(c, Some(doomed))]);
      RunOne(start, es, DeleteCodes(t), locked, s);
      ghost var deleted := s;
      ReplaceRecoveryCodes(user, doomed);
      ConsumeChallenge(c);
      Release(t);
      s := s.(threads := s.threads[t := Pending(lineage, None)]);
      RunOne(start, es + [DeleteCodes(t)], CompleteEnrolment(t), deleted, s);
      es' := es + [DeleteCodes(t)] + [CompleteEnrolment(t)];
    }

    /** start_passkey_authentication: the login challenge is exchanged for a passkey challenge of the same lineage. */
    method StartPasskeyLogin(t: Thread, c: ChallengeId) returns (started: bool, ghost es: seq<Event>)
      requires !HasPc(s, t)
      modifies this
      ensures Run(old(s), es) == Some(s) && started == Lockable(old(s), c, Login, old(s).now)
      ensures started <==>
        && c in old(s).challenges && c !in old(s).locks && old(s).challenges[c].kind == Login
        && old(s).challenges[c].consumed == None && old(s).now < old(s).challenges[c].expires
      ensures started ==> c in s.challenges && (c != old(s).nextChallenge ==> s.challenges[c].consumed == Some(s.now))
      ensures started ==>
        && old(s).nextChallenge in s.challenges
        && s.challenges[old(s).nextChallenge] == Challenge(old(s).challenges[c].user, PasskeyAuthentication,
                                                           old(s).challenges[c].lineage, 0, s.now + 300, None)
    {
      es := [];
      ghost var start := s;
      started := ChallengeForUpdate(t, c, Login, Holding(c, PasskeyStart));
      if !started {
        return;
      }
      RunOne(start, es, Lock(t, c, PasskeyStart, s.now), start, s);
      es := es + [Lock(t, c, PasskeyStart, s.now)];
      ghost var held := s;
      var row := s.challenges[c];
      ConsumeChallenge(c);
      Release(t);
      s := AddChallenge(s, row.user, PasskeyAuthentication, row.lineage);
      RunOne(start, es, StartPasskey(t), held, s);
      es := es + [StartPasskey(t)];
    }

    /** regenerate_recovery_codes, once re-authentication has succeeded. */
    method RegenerateRecoveryCodes(t: Thread, user: UserId) returns (ghost es: seq<Event>)
      requires CodesInv(s) && !HasPc(s, t)
      modifies this
      ensures Run(old(s), es) == Some(s)
      ensures forall k :: k in s.codes <==>
                || (k in old(s).codes && old(s).codes[k].user != user)
                || old(s).nextCode <= k < old(s).nextCode + 10
      ensures forall k :: k in s.codes ==>
                s.codes[k] == if old(s).nextCode <= k < old(s).nextCode + 10 then Code(user, false) else old(s).codes[k]
      ensures UserCodes(s, user) == FreshCodes(old(s))
    {
      es := [];
      ghost var start := s;
      s := s.(threads := s.threads[t := Regenerating(user, None)]);
      RunOne(start, es, StartRegeneration(t, user), start, s);
      es := es + [StartRegeneration(t, user)];
      ghost var begun := s;
      var doomed := UserCodes(s, user);
      s := s.(threads := s.threads[t := Regenerating(user, Some(doomed))]);
      RunOne(start, es, DeleteCodes(t), begun, s);
      es := es + [DeleteCodes(t)];
      ghost var deleted := s;
      ReplaceRecoveryCodes(user, doomed);
      Release(t);
      RunOne(start, es, CommitRegeneration(t), deleted, s);
      es := es + [CommitRegeneration(t)];
    }
  }
}
