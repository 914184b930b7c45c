/**
 How long a second-factor challenge lives. Whatever happens in between, nobody gets hold of a challenge once 300
 seconds have passed since the request that created it; before that, a right answer yields the session unless
 somebody else used the challenge or its user began another login.
 */
module MfaDeadlines {
  import opened Prelude
  import opened MfaLogin

  // ---------------------------------------------------------------- never later

  /** A challenge keeps the expiry it was created with, and its id is never given again. */
  ghost predicate ExpiresAt(s: State, c: ChallengeId, at: int) {
    c < s.nextChallenge && (c in s.challenges ==> s.challenges[c].expires == at)
  }

  lemma StepKeepsExpiry(s: State, e: Event, c: ChallengeId, at: int)
    requires ExpiresAt(s, c, at) && Step(s, e).Some?
    ensures ExpiresAt(Step(s, e).value, c, at)
  {}

  lemma {:induction false} RunKeepsExpiry(s: State, es: seq<Event>, c: ChallengeId, at: int)
    requires ExpiresAt(s, c, at) && Run(s, es).Some?
    ensures ExpiresAt(Run(s, es).value, c, at)
    decreases |es|
  {
    if es != [] {
      StepKeepsExpiry(s, es[0], c, at);
      RunKeepsExpiry(Step(s, es[0]).value, es[1..], c, at);
    }
  }

  /**
   No transaction that starts 300 seconds or more after the event that created a challenge locks it, in any run and
   for any purpose, nor does the second transaction of an enrolment.
   */
  lemma NoLockAfterDeadline(s: State, e: Event, es: seq<Event>, m: State, started: int)
    requires (e.BeginLogin? || e.StartPasskey?) && Step(s, e).Some?
    requires Run(Step(s, e).value, es) == Some(m) && s.now + 300 <= started
    ensures forall t, purpose :: Step(m, Lock(t, s.nextChallenge, purpose, started)) == None
    ensures forall t :: t in m.threads && m.threads[t] == Verified(s.nextChallenge) ==>
              Step(m, LockAgain(t, started)) == None
  {
    RunKeepsExpiry(Step(s, e).value, es, s.nextChallenge, s.now + 300);
  }

  // ---------------------------------------------------------------- in time

  /** The challenge a request works on inside or between its transactions. */
  predicate WorksOn(pc: Pc, c: ChallengeId) {
    (pc.Holding? || pc.Verified? || pc.Completing?) && pc.challenge == c
  }

  ghost predicate PcsKnown(s: State) {
    forall t, c: ChallengeId :: t in s.threads && WorksOn(s.threads[t], c) ==> c < s.nextChallenge
  }

  lemma StepKeepsPcs(s: State, e: Event)
    requires Inv(s) && PcsKnown(s) && Step(s, e).Some?
    ensures PcsKnown(Step(s, e).value)
  {}

  lemma {:induction false} RunKeepsPcs(s: State, es: seq<Event>)
    requires Inv(s) && PcsKnown(s) && Run(s, es).Some?
    ensures Inv(Run(s, es).value) && PcsKnown(Run(s, es).value)
    decreases |es|
  {
    if es != [] {
      StepKeepsInv(s, es[0]);
      StepKeepsPcs(s, es[0]);
      RunKeepsPcs(Step(s, es[0]).value, es[1..]);
    }
  }

  /** Nobody has used challenge `c` since it was created as `row`. */
  ghost predicate Untouched(s: State, c: ChallengeId, row: Challenge) {
    && c < s.nextChallenge && c in s.challenges && s.challenges[c] == row && c !in s.locks
    && forall t :: t in s.threads ==> !WorksOn(s.threads[t], c)
  }

  /** Another request for the challenge, or another login of its user. */
  predicate Interferes(e: Event, c: ChallengeId, user: UserId) {
    (e.Lock? && e.challenge == c) || (e.BeginLogin? && e.user == user)
  }

  lemma StepLeavesUntouched(s: State, e: Event, c: ChallengeId, row: Challenge)
    requires UntouchedUntil(s, c, row) && row.consumed == None
    requires !Interferes(e, c, row.user) && Step(s, e).Some?
    ensures UntouchedUntil(Step(s, e).value, c, row)
  {}

  /** As long as the challenge has not expired, nobody has used it. */
  ghost predicate UntouchedUntil(s: State, c: ChallengeId, row: Challenge) {
    s.now < row.expires ==> Untouched(s, c, row)
  }

  lemma {:induction false} RunLeavesUntouched(s: State, es: seq<Event>, c: ChallengeId, row: Challenge)
    requires UntouchedUntil(s, c, row) && row.consumed == None && Run(s, es).Some?
    requires forall e :: e in es ==> !Interferes(e, c, row.user)
    ensures UntouchedUntil(Run(s, es).value, c, row)
    decreases |es|
  {
    if es != [] {
      assert es[0] in es;
      StepLeavesUntouched(s, es[0], c, row);
      RunLeavesUntouched(Step(s, es[0]).value, es[1..], c, row);
    }
  }

  /** The challenge an event creates, as the row it inserts. */
  function Created(s: State, e: Event): (row: Challenge)
    requires e.BeginLogin? || (e.StartPasskey? && Step(s, e).Some?)
    ensures row.expires == s.now + 300 && row.consumed == None
  {
    match e
    case BeginLogin(user, enrol) =>
      Challenge(user, if enrol then TotpEnrollment else Login, s.nextLineage, 0, s.now + 300, None)
    case StartPasskey(t) =>
      var was := s.challenges[s.threads[t].challenge];
      Challenge(was.user, PasskeyAuthentication, was.lineage, 0, s.now + 300, None)
  }

  lemma CreatedUntouched(before: seq<Event>, s: State, e: Event)
    requires Run(INITIAL, before) == Some(s) && (e.BeginLogin? || e.StartPasskey?) && Step(s, e).Some?
    ensures Untouched(Step(s, e).value, s.nextChallenge, Created(s, e))
  {
    RunKeepsPcs(INITIAL, before);
    forall c | c in s.locks ensures c < s.nextChallenge {
      assert c in s.challenges;
    }
  }

  lemma RunCons(s: State, e: Event, next: State, es: seq<Event>, m: State)
    requires Step(s, e) == Some(next) && Run(next, es) == Some(m)
    ensures Run(s, [e] + es) == Some(m)
  {
    assert ([e] + es)[1..] == es;
  }

  lemma RunTwo(s: State, e1: Event, m1: State, e2: Event, m2: State)
    requires Step(s, e1) == Some(m1) && Step(m1, e2) == Some(m2)
    ensures Run(s, [e1, e2]) == Some(m2)
  {
    RunCons(m1, e2, m2, [], m2);
    RunCons(s, e1, m1, [e2], m2);
    assert [e2] + [] == [e2] && [e1] + [e2] == [e1, e2];
  }

  /** A right answer to a free challenge yields the session of its login. */
  lemma AnswerYieldsSession(m: State, c: ChallengeId, row: Challenge, t: Thread, purpose: Purpose)
    returns (m': State)
    requires Untouched(m, c, row) && row.consumed == None && m.now < row.expires && !HasPc(m, t)
    requires (purpose.Totp? && row.kind == Login) || (purpose.PasskeyFinish? && row.kind == PasskeyAuthentication)
    ensures Run(m, [Lock(t, c, purpose, m.now), Accept(t), Mint(t)]) == Some(m')
    ensures m'.sessions == m.sessions + [Session(row.lineage, None)]
  {
    var m1 := Step(m, Lock(t, c, purpose, m.now)).value;
    var m2 := Step(m1, Accept(t)).value;
    m' := Step(m2, Mint(t)).value;
    RunTwo(m1, Accept(t), m2, Mint(t), m');
    RunCons(m, Lock(t, c, purpose, m.now), m1, [Accept(t), Mint(t)], m');
    assert [Lock(t, c, purpose, m.now)] + [Accept(t), Mint(t)] == [Lock(t, c, purpose, m.now), Accept(t), Mint(t)];
  }

  lemma EnrolmentVerifies(m: State, c: ChallengeId, row: Challenge, t: Thread) returns (m1: State, m2: State)
    requires Untouched(m, c, row) && row.kind == TotpEnrollment && row.consumed == None && m.now < row.expires
    requires !HasPc(m, t)
    ensures Step(m, Lock(t, c, Enrolment, m.now)) == Some(m1) && Step(m1, RollBack(t)) == Some(m2)
    ensures m2.challenges == m.challenges && c !in m2.locks && m2.now == m.now && m2.sessions == m.sessions
    ensures HasPc(m2, t) && m2.threads[t] == Verified(c)
  {
    m1 := m.(locks := m.locks[c := t], threads := m.threads[t := Holding(c, Enrolment)]);
    m2 := Step(m1, RollBack(t)).value;
  }

  lemma CodesDeleted(m: State, c: ChallengeId, t: Thread) returns (m1: State, m2: State)
    requires c in m.challenges && m.challenges[c].kind == TotpEnrollment && m.challenges[c].consumed == None
    requires m.now < m.challenges[c].expires && c !in m.locks && HasPc(m, t) && m.threads[t] == Verified(c)
    ensures Step(m, LockAgain(t, m.now)) == Some(m1) && Step(m1, DeleteCodes(t)) == Some(m2)
    ensures m2.challenges == m.challenges && m2.sessions == m.sessions
    ensures HasPc(m2, t) && m2.threads[t].Completing? && m2.threads[t].challenge == c && m2.threads[t].doomed.Some?
  {
    m1 := m.(locks := m.locks[c := t], threads := m.threads[t := Completing(c, None)]);
    m2 := Step(m1, DeleteCodes(t)).value;
  }

  lemma CompletedAndMinted(m: State, c: ChallengeId, t: Thread) returns (m1: State, m2: State)
    requires c in m.challenges && HasPc(m, t)
    requires m.threads[t].Completing? && m.threads[t].challenge == c && m.threads[t].doomed.Some?
    ensures Step(m, CompleteEnrolment(t)) == Some(m1) && Step(m1, Mint(t)) == Some(m2)
    ensures m2.sessions == m.sessions + [Session(m.challenges[c].lineage, None)]
  {
    m1 := Step(m, CompleteEnrolment(t)).value;
    m2 := Step(m1, Mint(t)).value;
  }

  lemma EnrolmentCompletes(m: State, c: ChallengeId, t: Thread) returns (m': State)
    requires c in m.challenges && m.challenges[c].kind == TotpEnrollment && m.challenges[c].consumed == None
    requires m.now < m.challenges[c].expires && c !in m.locks && HasPc(m, t) && m.threads[t] == Verified(c)
    ensures Run(m, [LockAgain(t, m.now), DeleteCodes(t), CompleteEnrolment(t), Mint(t)]) == Some(m')
    ensures m'.sessions == m.sessions + [Session(m.challenges[c].lineage, None)]
  {
    var m1, m2 := CodesDeleted(m, c, t);
    var m3, m4 := CompletedAndMinted(m2, c, t);
    m' := m4;
    RunFour(m, LockAgain(t, m.now), m1, DeleteCodes(t), m2, CompleteEnrolment(t), m3, Mint(t), m4);
  }

  lemma RunFour(s: State, e1: Event, m1: State, e2: Event, m2: State, e3: Event, m3: State, e4: Event, m4: State)
    requires Step(s, e1) == Some(m1) && Step(m1, e2) == Some(m2) && Step(m2, e3) == Some(m3)
    requires Step(m3, e4) == Some(m4)
    ensures Run(s, [e1, e2, e3, e4]) == Some(m4)
  {
    RunTwo(m2, e3, m3, e4, m4);
    RunCons(m1, e2, m2, [e3, e4], m4);
    RunCons(s, e1, m1, [e2] + [e3, e4], m4);
    assert [e1] + ([e2] + [e3, e4]) == [e1, e2, e3, e4];
  }

  /** A right code for a free enrolment challenge does too, through both of its transactions. */
  lemma EnrolmentYieldsSession(m: State, c: ChallengeId, row: Challenge, t: Thread) returns (m': State)
    requires Untouched(m, c, row) && row.kind == TotpEnrollment && row.consumed == None && m.now < row.expires
    requires !HasPc(m, t)
    ensures Run(m, [Lock(t, c, Enrolment, m.now), RollBack(t), LockAgain(t, m.now), DeleteCodes(t),
                    CompleteEnrolment(t), Mint(t)]) == Some(m')
    ensures m'.sessions == m.sessions + [Session(row.lineage, None)]
  {
    var m1, m2 := EnrolmentVerifies(m, c, row, t);
    m' := EnrolmentCompletes(m2, c, t);
    var rest := [LockAgain(t, m.now), DeleteCodes(t), CompleteEnrolment(t), Mint(t)];
    RunCons(m1, RollBack(t), m2, rest, m');
    RunCons(m, Lock(t, c, Enrolment, m.now), m1, [RollBack(t)] + rest, m');
    assert [Lock(t, c, Enrolment, m.now)] + ([RollBack(t)] + rest)
        == [Lock(t, c, Enrolment, m.now), RollBack(t), LockAgain(t, m.now), DeleteCodes(t), CompleteEnrolment(t),
            Mint(t)];
  }

  /**
   Less than 300 seconds after a begin_login, and whatever others did meanwhile as long as nobody took the challenge
   and the user began no other login, a right TOTP code yields the session of that login.
   */
  lemma RightAnswerInTime(before: seq<Event>, s: State, user: UserId, es: seq<Event>, m: State, t: Thread)
    returns (m': State)
    requires Run(INITIAL, before) == Some(s) && Step(s, BeginLogin(user, false)).Some?
    requires Run(Step(s, BeginLogin(user, false)).value, es) == Some(m) && m.now < s.now + 300 && !HasPc(m, t)
    requires forall e :: e in es ==> !Interferes(e, s.nextChallenge, user)
    ensures Run(m, [Lock(t, s.nextChallenge, Totp, m.now), Accept(t), Mint(t)]) == Some(m')
    ensures m'.sessions == m.sessions + [Session(s.nextLineage, None)]
  {
    var row := Created(s, BeginLogin(user, false));
    CreatedUntouched(before, s, BeginLogin(user, false));
    RunLeavesUntouched(Step(s, BeginLogin(user, false)).value, es, s.nextChallenge, row);
    m' := AnswerYieldsSession(m, s.nextChallenge, row, t, Totp);
  }

  /** The same for a passkey, counted from the request that exchanged the login challenge. */
  lemma PasskeyInTime(before: seq<Event>, s: State, t0: Thread, es: seq<Event>, m: State, t: Thread)
    returns (m': State)
    requires Run(INITIAL, before) == Some(s) && Step(s, StartPasskey(t0)).Some?
    requires Run(Step(s, StartPasskey(t0)).value, es) == Some(m) && m.now < s.now + 300 && !HasPc(m, t)
    requires forall e :: e in es ==> !Interferes(e, s.nextChallenge, s.challenges[s.threads[t0].challenge].user)
    ensures Run(m, [Lock(t, s.nextChallenge, PasskeyFinish, m.now), Accept(t), Mint(t)]) == Some(m')
    ensures m'.sessions == m.sessions + [Session(s.challenges[s.threads[t0].challenge].lineage, None)]
  {
    var row := Created(s, StartPasskey(t0));
    CreatedUntouched(before, s, StartPasskey(t0));
    RunLeavesUntouched(Step(s, StartPasskey(t0)).value, es, s.nextChallenge, row);
    m' := AnswerYieldsSession(m, s.nextChallenge, row, t, PasskeyFinish);
  }

  /** The same for the first login of a user who still has to enrol. */
  lemma EnrolmentInTime(before: seq<Event>, s: State, user: UserId, es: seq<Event>, m: State, t: Thread)
    returns (m': State)
    requires Run(INITIAL, before) == Some(s) && Step(s, BeginLogin(user, true)).Some?
    requires Run(Step(s, BeginLogin(user, true)).value, es) == Some(m) && m.now < s.now + 300
    requires !HasPc(m, t)
    requires forall e :: e in es ==> !Interferes(e, s.nextChallenge, user)
    ensures Run(m, [Lock(t, s.nextChallenge, Enrolment, m.now), RollBack(t), LockAgain(t, m.now), DeleteCodes(t),
                    CompleteEnrolment(t), Mint(t)]) == Some(m')
    ensures m'.sessions == m.sessions + [Session(s.nextLineage, None)]
  {
    var row := Created(s, BeginLogin(user, true));
    CreatedUntouched(before, s, BeginLogin(user, true));
    RunLeavesUntouched(Step(s, BeginLogin(user, true)).value, es, s.nextChallenge, row);
    m' := EnrolmentYieldsSession(m, s.nextChallenge, row, t);
  }

  // ---------------------------------------------------------------- one at a time

  predicate IsOpen(s: State, c: ChallengeId) {
    c in s.challenges && s.challenges[c].consumed == None
  }

  ghost predicate OneOpenPerUser(s: State) {
    forall c, d :: IsOpen(s, c) && IsOpen(s, d) && s.challenges[c].user == s.challenges[d].user ==> c == d
  }

  lemma OtherEventsOpenNothing(s: State, e: Event, c: ChallengeId)
    requires LocksOk(s) && Step(s, e).Some? && !e.BeginLogin? && !e.StartPasskey? && IsOpen(Step(s, e).value, c)
    ensures IsOpen(s, c) && s.challenges[c].user == Step(s, e).value.challenges[c].user
  {}

  lemma LoginOpensOne(s: State, e: Event)
    requires OneOpenPerUser(s) && e.BeginLogin? && Step(s, e).Some?
    ensures OneOpenPerUser(Step(s, e).value)
  {}

  lemma PasskeyOpensOne(s: State, e: Event)
    requires OneOpenPerUser(s) && LocksOk(s) && e.StartPasskey? && Step(s, e).Some?
    ensures OneOpenPerUser(Step(s, e).value)
  {}

  lemma StepKeepsOneOpen(s: State, e: Event)
    requires OneOpenPerUser(s) && LocksOk(s) && Step(s, e).Some?
    ensures OneOpenPerUser(Step(s, e).value)
  {
    var s' := Step(s, e).value;
    if e.BeginLogin? {
      LoginOpensOne(s, e);
    } else if e.StartPasskey? {
      PasskeyOpensOne(s, e);
    } else {
      forall c, d | IsOpen(s', c) && IsOpen(s', d) && s'.challenges[c].user == s'.challenges[d].user ensures c == d {
        OtherEventsOpenNothing(s, e, c);
        OtherEventsOpenNothing(s, e, d);
      }
    }
  }

  /** A new login supersedes what the user had open: in no run has a user two open challenges. */
  lemma {:induction false} OneOpenChallengePerUser(s: State, es: seq<Event>)
    requires Inv(s) && OneOpenPerUser(s) && Run(s, es).Some?
    ensures OneOpenPerUser(Run(s, es).value)
    decreases |es|
  {
    if es != [] {
      StepKeepsInv(s, es[0]);
      StepKeepsOneOpen(s, es[0]);
      OneOpenChallengePerUser(Step(s, es[0]).value, es[1..]);
    }
  }
}
