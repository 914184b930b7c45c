/**
 Second-factor login as an interleaving of requests: single-use challenges read under a row lock,
 enrolment that verifies, rolls back and locks again, recovery codes matched before the transaction
 that spends them, and code replacement by DELETE then INSERT at READ COMMITTED.

 A challenge belongs to the begin_login that started it; its `lineage` passes from a login challenge
 to the passkey challenge created in its place and on to the session that is finally minted. Checking a
 code, an assertion or a hash is the choice between the events Accept and Reject.
 */
module MfaLogin {
  import opened Prelude

  type UserId = nat
  type Thread = nat
  type ChallengeId = nat
  type CodeId = nat

  const CHALLENGE_TTL := 300
  const MAX_ATTEMPTS := 5
  const RECOVERY_CODES := 10

  datatype Kind = Login | TotpEnrollment | PasskeyAuthentication
  datatype Challenge = Challenge(user: UserId, kind: Kind, lineage: nat, attempts: nat, expires: int,
      consumed: Option<int>)
  datatype Code = Code(user: UserId, used: bool)
  datatype Session = Session(lineage: nat, code: Option<CodeId>)

  datatype Purpose = Totp | Enrolment | Recovery(code: Option<CodeId>) | PasskeyStart | PasskeyFinish

  /** Where a request is; a request that holds a challenge has its row locked. */
  datatype Pc =
    | Holding(challenge: ChallengeId, purpose: Purpose)
    | Verified(challenge: ChallengeId)
    | Completing(challenge: ChallengeId, doomed: Option<set<CodeId>>)
    | Matched(challenge: ChallengeId, code: Option<CodeId>)
    | Regenerating(user: UserId, doomed: Option<set<CodeId>>)
    | Pending(lineage: nat, code: Option<CodeId>)

  datatype State = State(
    now: int,
    challenges: map<ChallengeId, Challenge>,
    locks: map<ChallengeId, Thread>,
    threads: map<Thread, Pc>,
    sessions: seq<Session>,
    codes: map<CodeId, Code>,
    spent: seq<CodeId>,
    failed: map<nat, nat>,
    nextChallenge: nat,
    nextLineage: nat,
    nextCode: nat)

  datatype Event =
    | Advance(seconds: nat)
    | BeginLogin(user: UserId, enrol: bool)
    | Lock(thread: Thread, challenge: ChallengeId, purpose: Purpose, started: int)
    | Reject(thread: Thread)
    | Accept(thread: Thread)
    | StartPasskey(thread: Thread)
    | RollBack(thread: Thread)
    | LockAgain(thread: Thread, started: int)
    | DeleteCodes(thread: Thread)
    | CompleteEnrolment(thread: Thread)
    | MatchCode(thread: Thread, challenge: ChallengeId, code: Option<CodeId>)
    | StartRegeneration(thread: Thread, user: UserId)
    | CommitRegeneration(thread: Thread)
    | Mint(thread: Thread)
    | Drop(thread: Thread)

  const INITIAL := State(0, map[], map[], map[], [], map[], [], map[], 0, 0, 0)

  function KindFor(p: Purpose): Kind {
    match p
    case Enrolment => TotpEnrollment
    case PasskeyFinish => PasskeyAuthentication
    case _ => Login
  }

  /** challenge_for_update finds the row and nobody else has it locked. */
  predicate Lockable(s: State, c: ChallengeId, kind: Kind, started: int) {
    && c in s.challenges && c !in s.locks && s.challenges[c].kind == kind
    && s.challenges[c].consumed == None && s.challenges[c].expires > started && started <= s.now
  }

  function Consume(s: State, c: ChallengeId): State
    requires c in s.challenges
  {
    s.(challenges := s.challenges[c := s.challenges[c].(consumed := Some(s.now))])
  }

  /** The request ends and releases whatever row lock it has. */
  function Leave(s: State, t: Thread): State {
    s.(threads := s.threads - {t}, locks := map c | c in s.locks && s.locks[c] != t :: s.locks[c])
  }

  function UserCodes(s: State, user: UserId): set<CodeId> {
    set c | c in s.codes && s.codes[c].user == user
  }

  /** consume_recovery_code: the conditional UPDATE that spends a code. */
  predicate Spendable(s: State, code: Option<CodeId>, user: UserId) {
    code.Some? && code.value in s.codes && s.codes[code.value] == Code(user, false)
  }

  /** The INSERT loop of replace_recovery_codes; ids come from a sequence. */
  function InsertCodes(codes: map<CodeId, Code>, user: UserId, first: CodeId, n: nat): (r: map<CodeId, Code>)
    ensures forall c: CodeId :: c in r <==> c in codes || first <= c < first + n
    ensures forall c: CodeId :: c in r ==> r[c] == if first <= c < first + n then Code(user, false) else codes[c]
  {
    if n == 0 then codes else InsertCodes(codes, user, first, n - 1)[first + n - 1 := Code(user, false)]
  }

  /** DELETE the codes a statement saw, INSERT ten new ones. */
  function ReplaceCodes(s: State, user: UserId, doomed: set<CodeId>): State {
    s.(codes := InsertCodes(map c | c in s.codes && c !in doomed :: s.codes[c], user, s.nextCode, RECOVERY_CODES),
       nextCode := s.nextCode + RECOVERY_CODES)
  }

  predicate Prunable(s: State, row: Challenge) {
    row.expires < s.now - DAY || (row.consumed.Some? && row.consumed.value < s.now - DAY)
  }

  /** The rows prune_challenges keeps, and those of the user that consume_login_challenges_for_user consumes. */
  function Superseded(s: State, user: UserId): map<ChallengeId, Challenge> {
    map c | c in s.challenges && !Prunable(s, s.challenges[c]) ::
      if s.challenges[c].user == user && s.challenges[c].consumed == None
      then s.challenges[c].(consumed := Some(s.now)) else s.challenges[c]
  }

  function AddChallenge(s: State, user: UserId, kind: Kind, lineage: nat): State {
    s.(challenges := s.challenges[s.nextChallenge := Challenge(user, kind, lineage, 0, s.now + CHALLENGE_TTL, None)],
       nextChallenge := s.nextChallenge + 1)
  }

  function FailedIn(s: State, lineage: nat): nat {
    if lineage in s.failed then s.failed[lineage] else 0
  }

  /** record_challenge_failure */
  function RecordFailure(s: State, c: ChallengeId): State
    requires c in s.challenges
  {
    var row := s.challenges[c];
    s.(challenges := s.challenges[c := row.(attempts := row.attempts + 1,
                                            consumed := if row.attempts + 1 >= MAX_ATTEMPTS
                                                        then Some(s.now) else row.consumed)],
       failed := s.failed[row.lineage := FailedIn(s, row.lineage) + 1])
  }

  /** The factor was right: spend the code if there is one, consume the challenge, commit. */
  function AcceptHeld(s: State, t: Thread, c: ChallengeId, code: Option<CodeId>): State
    requires c in s.challenges
  {
    var s1 := if code.Some? && code.value in s.codes
              then s.(codes := s.codes[code.value := s.codes[code.value].(used := true)],
                  spent := s.spent + [code.value])
              else s;
    var s2 := Leave(Consume(s1, c), t);
    s2.(threads := s2.threads[t := Pending(s.challenges[c].lineage, code)])
  }

  predicate HasPc(s: State, t: Thread) {
    t in s.threads
  }

  /** None when the event cannot happen in `s`. */
  function Step(s: State, e: Event): Option<State> {
    match e
    case Advance(d) => Some(s.(now := s.now + d))
    case BeginLogin(user, enrol) =>
      if exists c :: c in s.locks && c in s.challenges
          && (s.challenges[c].user == user || Prunable(s, s.challenges[c])) then None
      else
        var s1 := s.(challenges := Superseded(s, user));
        var kind := if enrol then TotpEnrollment else Login;
        Some(AddChallenge(s1, user, kind, s.nextLineage).(nextLineage := s.nextLineage + 1))
    case Lock(t, c, purpose, started) =>
      if !Lockable(s, c, KindFor(purpose), started) then None
      else if purpose.Recovery? && !(HasPc(s, t) && s.threads[t] == Matched(c, purpose.code)) then None
      else if !purpose.Recovery? && HasPc(s, t) then None
      else Some(s.(locks := s.locks[c := t], threads := s.threads[t := Holding(c, purpose)]))
    case Reject(t) =>
      if !HasPc(s, t) || !s.threads[t].Holding? || s.threads[t].challenge !in s.challenges then None
      else
        var p := s.threads[t];
        if p.purpose.PasskeyStart? then None
        else if p.purpose.Recovery? && Spendable(s, p.purpose.code, s.challenges[p.challenge].user) then None
        else Some(Leave(RecordFailure(s, p.challenge), t))
    case Accept(t) =>
      if !HasPc(s, t) || !s.threads[t].Holding? || s.threads[t].challenge !in s.challenges then None
      else
        var p := s.threads[t];
        if p.purpose.PasskeyStart? || p.purpose.Enrolment? then None
        else if p.purpose.Recovery? && !Spendable(s, p.purpose.code, s.challenges[p.challenge].user) then None
        else Some(AcceptHeld(s, t, p.challenge, if p.purpose.Recovery? then p.purpose.code else None))
    case StartPasskey(t) =>
      if !HasPc(s, t) || !s.threads[t].Holding? || !s.threads[t].purpose.PasskeyStart?
          || s.threads[t].challenge !in s.challenges
      then None
      else
        var c := s.threads[t].challenge;
        Some(AddChallenge(Leave(Consume(s, c), t), s.challenges[c].user, PasskeyAuthentication,
            s.challenges[c].lineage))
    case RollBack(t) =>
      if !HasPc(s, t) || !s.threads[t].Holding? || !s.threads[t].purpose.Enrolment? then None
      else
        var s1 := Leave(s, t);
        Some(s1.(threads := s1.threads[t := Verified(s.threads[t].challenge)]))
    case LockAgain(t, started) =>
      if !HasPc(s, t) || !s.threads[t].Verified?
          || !Lockable(s, s.threads[t].challenge, TotpEnrollment, started) then None
      else
        var c := s.threads[t].challenge;
        Some(s.(locks := s.locks[c := t], threads := s.threads[t := Completing(c, None)]))
    case DeleteCodes(t) =>
      if !HasPc(s, t) then None
      else (
        match s.threads[t]
        case Completing(c, None) =>
          if c !in s.challenges then None
          else Some(s.(threads := s.threads[t := Completing(c, Some(UserCodes(s, s.challenges[c].user)))]))
        case Regenerating(user, None) =>
          Some(s.(threads := s.threads[t := Regenerating(user, Some(UserCodes(s, user)))]))
        case _ => None
      )
    case CompleteEnrolment(t) =>
      if !HasPc(s, t) || !s.threads[t].Completing? || s.threads[t].doomed.None?
          || s.threads[t].challenge !in s.challenges then None
      else
        var p := s.threads[t];
        Some(AcceptHeld(ReplaceCodes(s, s.challenges[p.challenge].user, p.doomed.value), t, p.challenge, None))
    case MatchCode(t, c, code) =>
      if HasPc(s, t) || c !in s.challenges || s.challenges[c].kind != Login
          || s.challenges[c].consumed != None then None
      else if code.Some? && !Spendable(s, code, s.challenges[c].user) then None
      else Some(s.(threads := s.threads[t := Matched(c, code)]))
    case StartRegeneration(t, user) =>
      if HasPc(s, t) then None else Some(s.(threads := s.threads[t := Regenerating(user, None)]))
    case CommitRegeneration(t) =>
      if !HasPc(s, t) || !s.threads[t].Regenerating? || s.threads[t].doomed.None? then None
      else Some(Leave(ReplaceCodes(s, s.threads[t].user, s.threads[t].doomed.value), t))
    case Mint(t) =>
      if !HasPc(s, t) || !s.threads[t].Pending? then None
      else Some(Leave(s, t).(sessions := s.sessions + [Session(s.threads[t].lineage, s.threads[t].code)]))
    case Drop(t) => if HasPc(s, t) then Some(Leave(s, t)) else None
  }

  function Run(s: State, es: seq<Event>): Option<State>
    decreases |es|
  {
    if es == [] then Some(s)
    else
      var s' := Step(s, es[0]);
      if s'.None? then None else Run(s'.value, es[1..])
  }

  // ---------------------------------------------------------------- the invariant

  /** What can still become, is becoming, or has become the one session of a lineage. */
  datatype Claim = Open(challenge: ChallengeId) | Promised(thread: Thread) | Minted(index: nat)

  ghost predicate Holds(s: State, k: Claim, lineage: nat) {
    match k
    case Open(c) => c in s.challenges && s.challenges[c].consumed == None && s.challenges[c].lineage == lineage
    case Promised(t) => t in s.threads && s.threads[t].Pending? && s.threads[t].lineage == lineage
    case Minted(i) => i < |s.sessions| && s.sessions[i].lineage == lineage
  }

  ghost predicate OneClaim(s: State) {
    forall k1: Claim, k2: Claim, l: nat :: Holds(s, k1, l) && Holds(s, k2, l) ==> k1 == k2
  }

  ghost predicate ClaimsBounded(s: State) {
    forall k: Claim, l: nat :: Holds(s, k, l) ==> l < s.nextLineage
  }

  /** A row lock belongs to a request that is inside a transaction on that challenge. */
  ghost predicate LocksOk(s: State) {
    && (forall t :: t in s.threads && (s.threads[t].Holding? || s.threads[t].Completing?) ==>
          var c := s.threads[t].challenge;
          && c in s.locks && s.locks[c] == t
          && c in s.challenges && s.challenges[c].consumed == None
          && s.challenges[c].kind == (if s.threads[t].Holding? then KindFor(s.threads[t].purpose) else TotpEnrollment))
    && (forall c :: c in s.locks ==> c in s.challenges)
  }

  /** Wrong answers the login challenge may have taken before it was exchanged for a passkey challenge. */
  function Earlier(kind: Kind): nat {
    if kind.PasskeyAuthentication? then MAX_ATTEMPTS - 1 else 0
  }

  ghost predicate AttemptsOk(s: State) {
    forall c :: c in s.challenges ==>
      var row := s.challenges[c];
      && c < s.nextChallenge && row.lineage < s.nextLineage
      && (row.consumed == None ==>
            && row.attempts < MAX_ATTEMPTS
            && FailedIn(s, row.lineage) <= row.attempts + Earlier(row.kind))
  }

  ghost predicate FailuresOk(s: State) {
    forall l :: l in s.failed ==> l < s.nextLineage && s.failed[l] <= 2 * MAX_ATTEMPTS - 1
  }

  ghost predicate Inv(s: State) {
    OneClaim(s) && ClaimsBounded(s) && LocksOk(s) && AttemptsOk(s) && FailuresOk(s)
  }

  // ---------------------------------------------------------------- every step keeps it

  lemma BeginKeepsInv(s: State, e: Event)
    requires e.BeginLogin? && Inv(s) && Step(s, e).Some?
    ensures Inv(Step(s, e).value)
  {
    var s' := Step(s, e).value;
    forall k: Claim, l: nat | Holds(s', k, l) && k != Open(s.nextChallenge) ensures Holds(s, k, l) {}
  }

  lemma LockKeepsInv(s: State, e: Event)
    requires (e.Lock? || e.LockAgain?) && Inv(s) && Step(s, e).Some?
    ensures Inv(Step(s, e).value)
  {
    var s' := Step(s, e).value;
    forall k: Claim, l: nat | Holds(s', k, l) ensures Holds(s, k, l) {}
  }

  lemma RejectKeepsInv(s: State, e: Event)
    requires e.Reject? && Inv(s) && Step(s, e).Some?
    ensures Inv(Step(s, e).value)
  {
    var s' := Step(s, e).value;
    forall k: Claim, l: nat | Holds(s', k, l) ensures Holds(s, k, l) {}
    var c := s.threads[e.thread].challenge;
    assert Holds(s, Open(c), s.challenges[c].lineage);
    forall d | d in s'.challenges && d != c && s'.challenges[d].consumed == None
      ensures s.challenges[d].lineage != s.challenges[c].lineage
    {
      assert Holds(s, Open(d), s.challenges[d].lineage);
    }
  }

  /** Consuming a held challenge passes its claim on to the request that held it. */
  lemma AcceptHeldKeepsInv(s: State, t: Thread, c: ChallengeId, code: Option<CodeId>)
    requires Inv(s) && t in s.threads && (s.threads[t].Holding? || s.threads[t].Completing?)
        && s.threads[t].challenge == c
    ensures c in s.challenges && Inv(AcceptHeld(s, t, c, code))
  {
    var s' := AcceptHeld(s, t, c, code);
    var l := s.challenges[c].lineage;
    assert Holds(s, Open(c), l);
    forall k: Claim, m: nat | Holds(s', k, m) && k != Promised(t) ensures Holds(s, k, m) && m != l {
      assert Holds(s, k, m);
      assert m == l ==> k == Open(c);
    }
  }

  lemma StartPasskeyKeepsInv(s: State, e: Event)
    requires e.StartPasskey? && Inv(s) && Step(s, e).Some?
    ensures Inv(Step(s, e).value)
  {
    var s' := Step(s, e).value;
    var c := s.threads[e.thread].challenge;
    var l := s.challenges[c].lineage;
    assert Holds(s, Open(c), l);
    forall k: Claim, m: nat | Holds(s', k, m) && k != Open(s.nextChallenge) ensures Holds(s, k, m) && m != l {
      assert Holds(s, k, m);
      assert m == l ==> k == Open(c);
    }
  }

  lemma MintKeepsInv(s: State, e: Event)
    requires e.Mint? && Inv(s) && Step(s, e).Some?
    ensures Inv(Step(s, e).value)
  {
    var s' := Step(s, e).value;
    var t := e.thread;
    var l := s.threads[t].lineage;
    assert Holds(s, Promised(t), l);
    forall k: Claim, m: nat | Holds(s', k, m) && k != Minted(|s.sessions|) ensures Holds(s, k, m) && m != l {
      assert Holds(s, k, m);
      assert m == l ==> k == Promised(t);
    }
  }

  lemma ReplaceKeepsInv(s: State, user: UserId, doomed: set<CodeId>)
    requires Inv(s)
    ensures Inv(ReplaceCodes(s, user, doomed))
  {
    var s' := ReplaceCodes(s, user, doomed);
    forall k: Claim, l: nat | Holds(s', k, l) ensures Holds(s, k, l) {}
  }

  /** Claims depend only on the challenges, the promises and the sessions. */
  lemma FrameKeepsInv(s: State, s': State)
    requires Inv(s) && LocksOk(s')
    requires s'.challenges == s.challenges && s'.sessions == s.sessions && s'.failed == s.failed
    requires s'.nextLineage == s.nextLineage && s'.nextChallenge == s.nextChallenge
    requires forall t :: t in s'.threads && s'.threads[t].Pending? ==> t in s.threads && s.threads[t] == s'.threads[t]
    ensures Inv(s')
  {
    forall k: Claim, l: nat | Holds(s', k, l) ensures Holds(s, k, l) {}
  }

  lemma LeaveKeepsInv(s: State, t: Thread)
    requires Inv(s)
    ensures Inv(Leave(s, t))
  {
    FrameKeepsInv(s, Leave(s, t));
  }

  /** A request outside any transaction moves on without touching a challenge. */
  lemma MoveKeepsInv(s: State, t: Thread, p: Pc)
    requires Inv(s) && !p.Holding? && !p.Completing? && !p.Pending?
    requires t in s.threads ==> !s.threads[t].Holding? && !s.threads[t].Completing?
    ensures Inv(s.(threads := s.threads[t := p]))
  {
    FrameKeepsInv(s, s.(threads := s.threads[t := p]));
  }

  lemma DeleteCodesKeepsInv(s: State, t: Thread)
    requires Inv(s) && Step(s, DeleteCodes(t)).Some?
    ensures Inv(Step(s, DeleteCodes(t)).value)
  {
    FrameKeepsInv(s, Step(s, DeleteCodes(t)).value);
  }

  lemma QuietKeepsInv(s: State, e: Event)
    requires e.Advance? || e.RollBack? || e.DeleteCodes? || e.MatchCode? || e.StartRegeneration?
        || e.CommitRegeneration? || e.Drop?
    requires Inv(s) && Step(s, e).Some?
    ensures Inv(Step(s, e).value)
  {
    var s' := Step(s, e).value;
    match e
    case Advance(_) => FrameKeepsInv(s, s');
    case RollBack(t) =>
      LeaveKeepsInv(s, t);
      MoveKeepsInv(Leave(s, t), t, Verified(s.threads[t].challenge));
    case DeleteCodes(t) => DeleteCodesKeepsInv(s, t);
    case MatchCode(t, c, code) => MoveKeepsInv(s, t, Matched(c, code));
    case StartRegeneration(t, user) => MoveKeepsInv(s, t, Regenerating(user, None));
    case CommitRegeneration(t) =>
      ReplaceKeepsInv(s, s.threads[t].user, s.threads[t].doomed.value);
      LeaveKeepsInv(ReplaceCodes(s, s.threads[t].user, s.threads[t].doomed.value), t);
    case Drop(t) => LeaveKeepsInv(s, t);
  }

  lemma StepKeepsInv(s: State, e: Event)
    requires Inv(s) && Step(s, e).Some?
    ensures Inv(Step(s, e).value)
  {
    match e
    case BeginLogin(_, _) => BeginKeepsInv(s, e);
    case Lock(_, _, _, _) => LockKeepsInv(s, e);
    case LockAgain(_, _) => LockKeepsInv(s, e);
    case Reject(_) => RejectKeepsInv(s, e);
    case Accept(t) =>
      var p := s.threads[t];
      AcceptHeldKeepsInv(s, t, p.challenge, if p.purpose.Recovery? then p.purpose.code else None);
    case StartPasskey(_) => StartPasskeyKeepsInv(s, e);
    case CompleteEnrolment(t) =>
      var p := s.threads[t];
      ReplaceKeepsInv(s, s.challenges[p.challenge].user, p.doomed.value);
      AcceptHeldKeepsInv(ReplaceCodes(s, s.challenges[p.challenge].user, p.doomed.value), t, p.challenge, None);
    case Mint(_) => MintKeepsInv(s, e);
    case _ => QuietKeepsInv(s, e);
  }

  lemma {:induction false} RunKeepsInv(s: State, es: seq<Event>)
    requires Inv(s) && Run(s, es).Some?
    ensures Inv(Run(s, es).value)
    decreases |es|
  {
    if es != [] {
      StepKeepsInv(s, es[0]);
      RunKeepsInv(Step(s, es[0]).value, es[1..]);
    }
  }

  // ---------------------------------------------------------------- one session per login

  ghost function OpenChallenges(s: State, lineage: nat): set<ChallengeId> {
    set c | c in s.challenges && s.challenges[c].consumed == None && s.challenges[c].lineage == lineage
  }

  ghost function Promises(s: State, lineage: nat): set<Thread> {
    set t | t in s.threads && s.threads[t].Pending? && s.threads[t].lineage == lineage
  }

  ghost function MintedSessions(s: State, lineage: nat): set<nat> {
    set i | 0 <= i < |s.sessions| && s.sessions[i].lineage == lineage
  }

  lemma AtMostOne<T>(s: set<T>)
    requires forall x, y :: x in s && y in s ==> x == y
    ensures |s| <= 1
  {
    if s != {} {
      var x :| x in s;
      assert s == {x};
    }
  }

  /**
   In every interleaving, the open challenges, promised sessions and minted sessions of one begin_login
   number at most one together; an open challenge has attempts left of its five; and the whole login sees at most
   nine wrong answers.
   */
  lemma AtMostOneSessionPerLogin(es: seq<Event>, lineage: nat)
    requires Run(INITIAL, es).Some?
    ensures var s := Run(INITIAL, es).value;
            && |OpenChallenges(s, lineage)| + |Promises(s, lineage)| + |MintedSessions(s, lineage)| <= 1
            && (forall c :: c in s.challenges && s.challenges[c].consumed == None ==>
                s.challenges[c].attempts < 5)
            && FailedIn(s, lineage) <= 9
  {
    RunKeepsInv(INITIAL, es);
    var s := Run(INITIAL, es).value;
    var o, p, m := OpenChallenges(s, lineage), Promises(s, lineage), MintedSessions(s, lineage);
    forall x | x in o ensures Holds(s, Open(x), lineage) {}
    forall x | x in p ensures Holds(s, Promised(x), lineage) {}
    forall x | x in m ensures Holds(s, Minted(x), lineage) {}
    AtMostOne(o);
    AtMostOne(p);
    AtMostOne(m);
    if o != {} {
      var x :| x in o;
      assert p == {} && m == {};
    } else if p != {} {
      var x :| x in p;
      assert m == {};
    }
  }

  // ---------------------------------------------------------------- recovery codes

  ghost predicate PaidWith(s: State, k: Claim, code: CodeId) {
    match k
    case Open(_) => false
    case Promised(t) => t in s.threads && s.threads[t].Pending? && s.threads[t].code == Some(code)
    case Minted(i) => i < |s.sessions| && s.sessions[i].code == Some(code)
  }

  /** Spent codes are distinct and stay unusable, and each pays for one login. */
  ghost predicate CodesInv(s: State) {
    && (forall c :: c in s.codes ==> c < s.nextCode)
    && (forall c :: c in s.spent ==> c < s.nextCode && (c in s.codes ==> s.codes[c].used))
    && (forall i, j :: 0 <= i < j < |s.spent| ==> s.spent[i] != s.spent[j])
    && (forall k: Claim, c: CodeId :: PaidWith(s, k, c) ==> c in s.spent)
    && (forall k1: Claim, k2: Claim, c: CodeId :: PaidWith(s, k1, c) && PaidWith(s, k2, c) ==> k1 == k2)
  }

  lemma CodesFrame(s: State, s': State)
    requires CodesInv(s) && s'.spent == s.spent && s'.sessions == s.sessions && s.nextCode <= s'.nextCode
    requires forall c :: c in s'.codes ==> (c in s.codes && s'.codes[c] == s.codes[c]) || s.nextCode <= c < s'.nextCode
    requires forall t :: t in s'.threads && s'.threads[t].Pending? ==> t in s.threads && s.threads[t] == s'.threads[t]
    ensures CodesInv(s')
  {
    forall k: Claim, c: CodeId | PaidWith(s', k, c) ensures PaidWith(s, k, c) {}
  }

  lemma AcceptKeepsCodes(s: State, t: Thread, c: ChallengeId, code: Option<CodeId>)
    requires CodesInv(s) && c in s.challenges && t in s.threads && !s.threads[t].Pending?
    requires code.Some? ==> code.value in s.codes && !s.codes[code.value].used
    ensures CodesInv(AcceptHeld(s, t, c, code))
  {
    var s' := AcceptHeld(s, t, c, code);
    forall k: Claim, x: CodeId | PaidWith(s', k, x) && k != Promised(t) ensures PaidWith(s, k, x) && Some(x) != code {
      assert PaidWith(s, k, x);
    }
    forall x | x in s'.spent ensures x < s'.nextCode && (x in s'.codes ==> s'.codes[x].used) {
      assert x in s.spent || Some(x) == code;
    }
  }

  lemma MintKeepsCodes(s: State, e: Event)
    requires e.Mint? && CodesInv(s) && Step(s, e).Some?
    ensures CodesInv(Step(s, e).value)
  {
    var s' := Step(s, e).value;
    var t := e.thread;
    forall k: Claim, x: CodeId | PaidWith(s', k, x)
      ensures PaidWith(s, if k == Minted(|s.sessions|) then Promised(t) else k, x)
      ensures k != Promised(t)
    {}
  }

  lemma EnrolmentKeepsCodes(s: State, t: Thread)
    requires CodesInv(s) && Step(s, CompleteEnrolment(t)).Some?
    ensures CodesInv(Step(s, CompleteEnrolment(t)).value)
  {
    var m := ReplaceCodes(s, s.challenges[s.threads[t].challenge].user, s.threads[t].doomed.value);
    CodesFrame(s, m);
    AcceptKeepsCodes(m, t, s.threads[t].challenge, None);
  }

  lemma StepKeepsCodes(s: State, e: Event)
    requires CodesInv(s) && Step(s, e).Some?
    ensures CodesInv(Step(s, e).value)
  {
    var s' := Step(s, e).value;
    match e
    case Accept(t) =>
      var p := s.threads[t];
      AcceptKeepsCodes(s, t, p.challenge, if p.purpose.Recovery? then p.purpose.code else None);
    case CompleteEnrolment(t) => EnrolmentKeepsCodes(s, t);
    case Mint(_) => MintKeepsCodes(s, e);
    case CommitRegeneration(t) => CodesFrame(s, s');
    case _ =>
      SameCodesFrame(s, e);
      CodesFrame(s, s');
  }

  /** Other steps neither change a code nor promise a session. */
  lemma SameCodesFrame(s: State, e: Event)
    requires Step(s, e).Some? && !e.Accept? && !e.CompleteEnrolment? && !e.Mint? && !e.CommitRegeneration?
    ensures var s' := Step(s, e).value;
            && s'.codes == s.codes && s'.nextCode == s.nextCode && s'.spent == s.spent && s'.sessions == s.sessions
            && forall t :: t in s'.threads && s'.threads[t].Pending? ==> t in s.threads && s.threads[t] == s'.threads[t]
  {}

  lemma {:induction false} RunKeepsCodes(s: State, es: seq<Event>)
    requires CodesInv(s) && Run(s, es).Some?
    ensures CodesInv(Run(s, es).value)
    decreases |es|
  {
    if es != [] {
      StepKeepsCodes(s, es[0]);
      RunKeepsCodes(Step(s, es[0]).value, es[1..]);
    }
  }

  /** In every interleaving no code is spent twice and no two sessions were paid with the same code. */
  lemma EachCodePaysOnce(es: seq<Event>)
    requires Run(INITIAL, es).Some?
    ensures var s := Run(INITIAL, es).value;
            && (forall i, j :: 0 <= i < j < |s.spent| ==> s.spent[i] != s.spent[j])
            && (forall i, j :: 0 <= i < j < |s.sessions| && s.sessions[i].code.Some? ==>
                s.sessions[i].code != s.sessions[j].code)
            && (forall i :: 0 <= i < |s.sessions| && s.sessions[i].code.Some? ==> s.sessions[i].code.value in s.spent)
  {
    RunKeepsCodes(INITIAL, es);
    var s := Run(INITIAL, es).value;
    forall i | 0 <= i < |s.sessions| && s.sessions[i].code.Some?
      ensures PaidWith(s, Minted(i), s.sessions[i].code.value) {}
    forall i, j | 0 <= i < j < |s.sessions| && s.sessions[i].code.Some?
      ensures s.sessions[i].code != s.sessions[j].code
    {
      assert PaidWith(s, Minted(i), s.sessions[i].code.value);
      assert s.sessions[j].code.Some? ==> PaidWith(s, Minted(j), s.sessions[j].code.value);
    }
  }

  // ---------------------------------------------------------------- regeneration

  lemma StepSpendsLiveCodes(s: State, e: Event, c: CodeId)
    requires Step(s, e).Some? && c < s.nextCode && c !in s.codes
    ensures var s' := Step(s, e).value;
            && c !in s'.codes && s.nextCode <= s'.nextCode
            && |s.spent| <= |s'.spent| && c !in s'.spent[|s.spent|..]
  {}

  /** A deleted code is never spent again, not even by a request that matched it before. */
  lemma {:induction false} DeadCodesStayDead(s: State, es: seq<Event>, c: CodeId)
    requires Run(s, es).Some? && c < s.nextCode && c !in s.codes
    ensures var s' := Run(s, es).value;
            c !in s'.codes && |s.spent| <= |s'.spent| && c !in s'.spent[|s.spent|..]
    decreases |es|
  {
    if es != [] {
      StepSpendsLiveCodes(s, es[0], c);
      var m := Step(s, es[0]).value;
      DeadCodesStayDead(m, es[1..], c);
      var s' := Run(s, es).value;
      StepExtendsSpent(s, es[0]);
      RunExtendsSpent(m, es[1..]);
      NeverAppended(s.spent, m.spent, s'.spent, c);
    }
  }

  lemma NeverAppended(a: seq<CodeId>, b: seq<CodeId>, d: seq<CodeId>, c: CodeId)
    requires a <= b <= d && c !in b[|a|..] && c !in d[|b|..]
    ensures c !in d[|a|..]
  {
    assert d[|a|..] == b[|a|..] + d[|b|..];
  }

  lemma StepExtendsSpent(s: State, e: Event)
    requires Step(s, e).Some?
    ensures s.spent <= Step(s, e).value.spent
  {}

  lemma {:induction false} RunExtendsSpent(s: State, es: seq<Event>)
    requires Run(s, es).Some?
    ensures s.spent <= Run(s, es).value.spent
    decreases |es|
  {
    if es != [] {
      StepExtendsSpent(s, es[0]);
      RunExtendsSpent(Step(s, es[0]).value, es[1..]);
    }
  }

  /** Once a regeneration commits, no code its DELETE saw is ever spent. */
  lemma RegenerationKillsSeenCodes(s: State, t: Thread, es: seq<Event>, c: CodeId)
    requires CodesInv(s) && t in s.threads && s.threads[t].Regenerating? && s.threads[t].doomed.Some?
    requires c in s.threads[t].doomed.value && c < s.nextCode
    requires var e := CommitRegeneration(t); Step(s, e).Some? && Run(Step(s, e).value, es).Some?
    ensures var m := Step(s, CommitRegeneration(t)).value;
            var s' := Run(m, es).value;
            |s.spent| <= |s'.spent| && c !in s'.spent[|s.spent|..]
  {
    var m := Step(s, CommitRegeneration(t)).value;
    assert c !in m.codes;
    DeadCodesStayDead(m, es, c);
  }

  /** The ids the next replacement will use. */
  function FreshCodes(s: State): (r: set<CodeId>)
    ensures forall c: CodeId :: c in r <==> s.nextCode <= c < s.nextCode + RECOVERY_CODES
  {
    InsertCodes(map[], 0, s.nextCode, RECOVERY_CODES).Keys
  }

  /** What a commit leaves: the codes its DELETE did not see, and its own. */
  lemma CommitLeaves(s: State, t: Thread, after: State)
    requires CodesInv(s) && t in s.threads && s.threads[t].Regenerating? && s.threads[t].doomed.Some?
    requires Step(s, CommitRegeneration(t)) == Some(after)
    ensures var user := s.threads[t].user;
            && UserCodes(after, user) == (UserCodes(s, user) - s.threads[t].doomed.value) + FreshCodes(s)
            && UserCodes(s, user) !! FreshCodes(s)
  {
    var user, doomed := s.threads[t].user, s.threads[t].doomed.value;
    forall c ensures c in UserCodes(after, user) <==> c in (UserCodes(s, user) - doomed) + FreshCodes(s) {}
  }

  /** Does this event commit a replacement of the user's codes? */
  predicate Replaces(s: State, e: Event, user: UserId) {
    match e
    case CommitRegeneration(t) => t in s.threads && s.threads[t].Regenerating? && s.threads[t].user == user
    case CompleteEnrolment(t) =>
      t in s.threads && s.threads[t].Completing? && s.threads[t].challenge in s.challenges
      && s.challenges[s.threads[t].challenge].user == user
    case _ => false
  }

  predicate NoReplacement(s: State, es: seq<Event>, user: UserId)
    decreases |es|
  {
    es == [] || (!Replaces(s, es[0], user)
        && (Step(s, es[0]).Some? ==> NoReplacement(Step(s, es[0]).value, es[1..], user)))
  }

  lemma StepAddsNoCodes(s: State, e: Event, user: UserId)
    requires Step(s, e).Some? && !Replaces(s, e, user)
    ensures UserCodes(Step(s, e).value, user) <= UserCodes(s, user)
  {}

  lemma {:induction false} RunAddsNoCodes(s: State, es: seq<Event>, user: UserId)
    requires Run(s, es).Some? && NoReplacement(s, es, user)
    ensures UserCodes(Run(s, es).value, user) <= UserCodes(s, user)
    decreases |es|
  {
    if es != [] {
      StepAddsNoCodes(s, es[0], user);
      RunAddsNoCodes(Step(s, es[0]).value, es[1..], user);
    }
  }

  /** The codes a request has deleted, if it has come that far, and whose they are. */
  function DoomOf(p: Pc): Option<set<CodeId>> {
    match p
    case Completing(_, doomed) => doomed
    case Regenerating(_, doomed) => doomed
    case _ => None
  }

  function OwnerOf(s: State, p: Pc): UserId {
    match p
    case Completing(c, _) => if c in s.challenges then s.challenges[c].user else 0
    case Regenerating(user, _) => user
    case _ => 0
  }

  /** A request deletes only old codes of the user it replaces them for. */
  ghost predicate DoomsOwn(s: State) {
    forall t :: t in s.threads ==> DoomOwn(s, s.threads[t])
  }

  ghost predicate DoomOwn(s: State, p: Pc) {
    DoomOf(p).Some? ==>
      forall c :: c in DoomOf(p).value ==> c < s.nextCode && (c in s.codes ==> s.codes[c].user == OwnerOf(s, p))
  }

  lemma StepKeepsOwners(s: State, e: Event)
    requires Inv(s) && Step(s, e).Some?
    ensures var s' := Step(s, e).value;
            && s.nextCode <= s'.nextCode
            && (forall c :: c in s'.codes && c < s.nextCode ==> c in s.codes && s'.codes[c].user == s.codes[c].user)
            && (forall c :: c in s.challenges && c in s'.challenges ==> s'.challenges[c].user == s.challenges[c].user)
  {
    StepKeepsCodeOwners(s, e);
    StepKeepsChallengeOwners(s, e);
  }

  lemma StepKeepsCodeOwners(s: State, e: Event)
    requires Step(s, e).Some?
    ensures var s' := Step(s, e).value;
            && s.nextCode <= s'.nextCode
            && (forall c :: c in s'.codes && c < s.nextCode ==> c in s.codes && s'.codes[c].user == s.codes[c].user)
  {}

  lemma StepKeepsChallengeOwners(s: State, e: Event)
    requires AttemptsOk(s) && Step(s, e).Some?
    ensures var s' := Step(s, e).value;
            forall c :: c in s.challenges && c in s'.challenges ==> s'.challenges[c].user == s.challenges[c].user
  {}

  lemma DoomComesFromDelete(s: State, e: Event, t: Thread)
    requires Step(s, e).Some? && e != DeleteCodes(t)
    requires t in Step(s, e).value.threads && DoomOf(Step(s, e).value.threads[t]).Some?
    ensures t in s.threads && s.threads[t] == Step(s, e).value.threads[t]
  {}

  lemma StepKeepsDooms(s: State, e: Event)
    requires Inv(s) && CodesInv(s) && DoomsOwn(s) && Step(s, e).Some?
    ensures DoomsOwn(Step(s, e).value)
  {
    var s' := Step(s, e).value;
    StepKeepsInv(s, e);
    StepKeepsOwners(s, e);
    forall t | t in s'.threads ensures DoomOwn(s', s'.threads[t]) {
      if e == DeleteCodes(t) {
        DeleteDoomsOwn(s, t);
      } else if DoomOf(s'.threads[t]).Some? {
        DoomComesFromDelete(s, e, t);
        assert DoomOwn(s, s.threads[t]) && OwnerOf(s', s'.threads[t]) == OwnerOf(s, s.threads[t]);
      }
    }
  }

  lemma DeleteDoomsOwn(s: State, t: Thread)
    requires CodesInv(s) && Step(s, DeleteCodes(t)).Some?
    ensures var s' := Step(s, DeleteCodes(t)).value; t in s'.threads && DoomOwn(s', s'.threads[t])
  {}

  /** The user has a code with an id from n on. */
  ghost predicate HasCodeFrom(s: State, user: UserId, n: nat) {
    exists c :: c in UserCodes(s, user) && n <= c
  }

  /** Only a replacement of the user's own codes removes any of them. */
  lemma StepKeepsUserCodes(s: State, e: Event, user: UserId)
    requires CodesInv(s) && DoomsOwn(s) && Step(s, e).Some? && !Replaces(s, e, user)
    ensures UserCodes(s, user) <= UserCodes(Step(s, e).value, user)
  {
    if e.CommitRegeneration? || e.CompleteEnrolment? {
      assert DoomOwn(s, s.threads[e.thread]);
    }
  }

  /** A replacement adds codes with new ids. */
  lemma ReplacementAddsCodes(s: State, e: Event, user: UserId)
    requires Step(s, e).Some? && Replaces(s, e, user)
    ensures HasCodeFrom(Step(s, e).value, user, s.nextCode)
  {
    assert s.nextCode in UserCodes(Step(s, e).value, user);
  }

  /** Once a replacement has committed, the user has new codes ever after, whatever commits later. */
  lemma {:induction false} ReplacementShows(s: State, es: seq<Event>, user: UserId, n: nat)
    requires Inv(s) && CodesInv(s) && DoomsOwn(s) && Run(s, es).Some? && n <= s.nextCode
    requires HasCodeFrom(s, user, n) || !NoReplacement(s, es, user)
    ensures HasCodeFrom(Run(s, es).value, user, n)
    decreases |es|
  {
    if es != [] {
      var e, m := es[0], Step(s, es[0]).value;
      StepKeepsInv(s, e);
      StepKeepsCodes(s, e);
      StepKeepsDooms(s, e);
      StepKeepsOwners(s, e);
      if Replaces(s, e, user) {
        ReplacementAddsCodes(s, e, user);
        var c :| c in UserCodes(m, user) && s.nextCode <= c;
        assert HasCodeFrom(m, user, n);
      } else {
        StepKeepsUserCodes(s, e, user);
      }
      ReplacementShows(m, es[1..], user, n);
    }
  }

  lemma {:induction false} RunKeepsDooms(s: State, es: seq<Event>)
    requires Inv(s) && CodesInv(s) && DoomsOwn(s) && Run(s, es).Some?
    ensures Inv(Run(s, es).value) && CodesInv(Run(s, es).value) && DoomsOwn(Run(s, es).value)
    decreases |es|
  {
    if es != [] {
      StepKeepsInv(s, es[0]);
      StepKeepsCodes(s, es[0]);
      StepKeepsDooms(s, es[0]);
      RunKeepsDooms(Step(s, es[0]).value, es[1..]);
    }
  }

  /** The DELETE of a regeneration sees exactly the user's codes. */
  lemma DeleteSeesUserCodes(s: State, t: Thread, user: UserId, s1: State)
    requires Inv(s) && CodesInv(s) && DoomsOwn(s) && t in s.threads && s.threads[t] == Regenerating(user, None)
    requires Step(s, DeleteCodes(t)) == Some(s1)
    ensures Inv(s1) && CodesInv(s1) && DoomsOwn(s1)
    ensures t in s1.threads && s1.threads[t] == Regenerating(user, Some(UserCodes(s1, user)))
  {
    StepKeepsInv(s, DeleteCodes(t));
    StepKeepsCodes(s, DeleteCodes(t));
    StepKeepsDooms(s, DeleteCodes(t));
    assert UserCodes(s1, user) == UserCodes(s, user);
  }

  /** No code was added since the DELETE if and only if no other replacement committed since. */
  lemma AddedIffReplaced(s1: State, t: Thread, user: UserId, during: seq<Event>, s2: State)
    requires Inv(s1) && CodesInv(s1) && DoomsOwn(s1)
    requires t in s1.threads && s1.threads[t] == Regenerating(user, Some(UserCodes(s1, user)))
    requires Run(s1, during) == Some(s2)
    ensures UserCodes(s2, user) <= UserCodes(s1, user) <==> NoReplacement(s1, during, user)
  {
    if NoReplacement(s1, during, user) {
      RunAddsNoCodes(s1, during, user);
    } else {
      ReplacementShows(s1, during, user, s1.nextCode);
      var c :| c in UserCodes(s2, user) && s1.nextCode <= c;
      assert c !in UserCodes(s1, user);
    }
  }

  /**
   The exact condition under which a regeneration replaces every code. Take any run to a request that has yet to
   DELETE (`s`), its DELETE (`s1`), and any events until it commits (`s2`): the user is left the ten new codes and
   no other if and only if no other replacement for the user commits in between.
   */
  lemma ReplacesAllIffAlone(before: seq<Event>, s: State, t: Thread, user: UserId, s1: State,
      during: seq<Event>, s2: State, after: State)
    requires Run(INITIAL, before) == Some(s) && t in s.threads && s.threads[t] == Regenerating(user, None)
    requires Step(s, DeleteCodes(t)) == Some(s1) && Run(s1, during) == Some(s2)
    requires t in s2.threads && t in s1.threads && s2.threads[t] == s1.threads[t]
    requires Step(s2, CommitRegeneration(t)) == Some(after)
    ensures UserCodes(after, user) == FreshCodes(s2) <==> NoReplacement(s1, during, user)
  {
    RunKeepsDooms(INITIAL, before);
    DeleteSeesUserCodes(s, t, user, s1);
    RunKeepsDooms(s1, during);
    AddedIffReplaced(s1, t, user, during, s2);
    CommitLeaves(s2, t, after);
    OnlyNewIff(UserCodes(s2, user), UserCodes(s1, user), FreshCodes(s2));
  }

  lemma OnlyNewIff(had: set<CodeId>, doomed: set<CodeId>, own: set<CodeId>)
    requires had !! own
    ensures (had - doomed) + own == own <==> had <= doomed
  {
    assert forall c :: c in had && c !in doomed ==> c in (had - doomed) + own && c !in own;
  }

  lemma {:induction false} RunOne(s: State, es: seq<Event>, e: Event, m: State, m': State)
    requires Run(s, es) == Some(m) && Step(m, e) == Some(m')
    ensures Run(s, es + [e]) == Some(m')
    decreases |es|
  {
    if es == [] {
      assert es + [e] == [e] && [e][1..] == [];
    } else {
      assert (es + [e])[1..] == es[1..] + [e];
      RunOne(Step(s, es[0]).value, es[1..], e, m, m');
    }
  }

  /**
   Whenever two regenerations of one user have both run their DELETE before either commits, the ten codes
   of the one that commits first are still spendable after the other has committed as well.
   */
  lemma OverlapKeepsFirstCodes(s: State, t0: Thread, t1: Thread, user: UserId)
    requires CodesInv(s) && DoomsOwn(s) && t0 in s.threads && t1 in s.threads && t0 != t1
    requires s.threads[t0].Regenerating? && s.threads[t0].user == user && s.threads[t0].doomed.Some?
    requires s.threads[t1].Regenerating? && s.threads[t1].user == user && s.threads[t1].doomed.Some?
    ensures var s1 := Step(s, CommitRegeneration(t0)).value;
            && t1 in s1.threads && s1.threads[t1] == s.threads[t1]
            && forall c :: c in FreshCodes(s) ==> Spendable(Step(s1, CommitRegeneration(t1)).value, Some(c), user)
  {
    assert DoomOwn(s, s.threads[t1]);
  }

  /** Wherever a run stands, two requests of any user can come to that point. */
  lemma BothDelete(s: State, t0: Thread, t1: Thread, user: UserId) returns (es: seq<Event>, m: State)
    requires !HasPc(s, t0) && !HasPc(s, t1) && t0 != t1
    ensures Run(s, es) == Some(m)
    ensures var seen := Regenerating(user, Some(UserCodes(s, user)));
            m == s.(threads := s.threads[t0 := seen][t1 := seen])
  {
    var begun, seen := Regenerating(user, None), Regenerating(user, Some(UserCodes(s, user)));
    var m1 := s.(threads := s.threads[t0 := begun]);
    var m2 := m1.(threads := m1.threads[t1 := begun]);
    var m3 := m2.(threads := m2.threads[t0 := seen]);
    m := m3.(threads := m3.threads[t1 := seen]);
    assert m.threads == s.threads[t0 := seen][t1 := seen];
    assert UserCodes(m2, user) == UserCodes(s, user) == UserCodes(m3, user);
    RunThree(s, StartRegeneration(t0, user), m1, StartRegeneration(t1, user), m2, DeleteCodes(t0), m3);
    es := [] + [StartRegeneration(t0, user)] + [StartRegeneration(t1, user)] + [DeleteCodes(t0)];
    RunOne(s, es, DeleteCodes(t1), m3, m);
    es := es + [DeleteCodes(t1)];
  }

  /** The first request of the system while it enrols `user`. */
  function Enrolling(user: UserId, locks: map<ChallengeId, Thread>, threads: map<Thread, Pc>): State {
    INITIAL.(challenges := map[0 := Challenge(user, TotpEnrollment, 0, 0, CHALLENGE_TTL, None)],
             locks := locks, threads := threads, nextChallenge := 1, nextLineage := 1)
  }

  /** Begin, verify, roll back and lock again. */
  lemma EnrolmentLocks(user: UserId) returns (es: seq<Event>)
    ensures Run(INITIAL, es) == Some(Enrolling(user, map[0 := 0], map[0 := Completing(0, None)]))
  {
    var m1 := Enrolling(user, map[], map[]);
    var m2 := Enrolling(user, map[0 := 0], map[0 := Holding(0, Enrolment)]);
    var m3 := Enrolling(user, map[], map[0 := Verified(0)]);
    var m4 := Enrolling(user, map[0 := 0], map[0 := Completing(0, None)]);
    assert Step(INITIAL, BeginLogin(user, true)) == Some(m1);
    EnrolmentVerifies(user, m1, m2, m3);
    EnrolmentRelocks(user, m3, m4);
    RunThree(INITIAL, BeginLogin(user, true), m1, Lock(0, 0, Enrolment, 0), m2, RollBack(0), m3);
    es := [] + [BeginLogin(user, true)] + [Lock(0, 0, Enrolment, 0)] + [RollBack(0)];
    RunOne(INITIAL, es, LockAgain(0, 0), m3, m4);
    es := es + [LockAgain(0, 0)];
  }

  lemma EnrolmentVerifies(user: UserId, m1: State, m2: State, m3: State)
    requires m1 == Enrolling(user, map[], map[])
    requires m2 == Enrolling(user, map[0 := 0], map[0 := Holding(0, Enrolment)])
    requires m3 == Enrolling(user, map[], map[0 := Verified(0)])
    ensures Step(m1, Lock(0, 0, Enrolment, 0)) == Some(m2) && Step(m2, RollBack(0)) == Some(m3)
  {
    assert m1.locks[0 := 0] == m2.locks && m1.threads[0 := Holding(0, Enrolment)] == m2.threads;
    assert Leave(m2, 0).threads[0 := Verified(0)] == m3.threads && Leave(m2, 0).locks == map[];
  }

  lemma EnrolmentRelocks(user: UserId, m3: State, m4: State)
    requires m3 == Enrolling(user, map[], map[0 := Verified(0)])
    requires m4 == Enrolling(user, map[0 := 0], map[0 := Completing(0, None)])
    ensures Step(m3, LockAgain(0, 0)) == Some(m4)
  {
    assert m3.locks[0 := 0] == m4.locks && m3.threads[0 := Completing(0, None)] == m4.threads;
  }

  /** Replace the codes, consume the challenge and mint the session. */
  lemma EnrolmentCompletes(user: UserId, s: State) returns (es: seq<Event>, s': State)
    requires s == Enrolling(user, map[0 := 0], map[0 := Completing(0, None)])
    ensures Run(s, es) == Some(s') && s'.threads == map[] && UserCodes(s', user) == FreshCodes(s)
  {
    var m1 := Enrolling(user, map[0 := 0], map[0 := Completing(0, Some({}))]);
    EnrolmentDeletes(user, s, m1);
    var m2 := EnrolmentConsumes(user, m1);
    s' := OnlyMint(m2);
    assert FreshCodes(m1) == FreshCodes(s) && UserCodes(s', user) == UserCodes(m2, user);
    RunThree(s, DeleteCodes(0), m1, CompleteEnrolment(0), m2, Mint(0), s');
    es := [] + [DeleteCodes(0)] + [CompleteEnrolment(0)] + [Mint(0)];
  }

  lemma RunThree(s: State, e1: Event, m1: State, e2: Event, m2: State, e3: Event, m3: State)
    requires Step(s, e1) == Some(m1) && Step(m1, e2) == Some(m2) && Step(m2, e3) == Some(m3)
    ensures Run(s, [] + [e1] + [e2] + [e3]) == Some(m3)
  {
    RunOne(s, [], e1, s, m1);
    RunOne(s, [] + [e1], e2, m1, m2);
    RunOne(s, [] + [e1] + [e2], e3, m2, m3);
  }

  lemma EnrolmentDeletes(user: UserId, s: State, m: State)
    requires s == Enrolling(user, map[0 := 0], map[0 := Completing(0, None)])
    requires m == Enrolling(user, map[0 := 0], map[0 := Completing(0, Some({}))])
    ensures Step(s, DeleteCodes(0)) == Some(m)
  {
    assert UserCodes(s, user) == {} && s.threads[0 := Completing(0, Some({}))] == m.threads;
  }

  lemma OnlyMint(s: State) returns (s': State)
    requires s.threads == map[0 := Pending(0, None)]
    ensures Step(s, Mint(0)) == Some(s') && s'.threads == map[] && s'.codes == s.codes
  {
    s' := Step(s, Mint(0)).value;
  }

  lemma EnrolmentConsumes(user: UserId, s: State) returns (s': State)
    requires s == Enrolling(user, map[0 := 0], map[0 := Completing(0, Some({}))])
    ensures Step(s, CompleteEnrolment(0)) == Some(s') && s'.threads == map[0 := Pending(0, None)]
    ensures UserCodes(s', user) == FreshCodes(s)
  {
    var replaced := ReplaceCodes(s, user, {});
    s' := AcceptHeld(replaced, 0, 0, None);
    FirstCodes(s, user);
    assert UserCodes(s', user) == UserCodes(replaced, user);
  }

  lemma FirstCodes(s: State, user: UserId)
    requires s.codes == map[]
    ensures UserCodes(ReplaceCodes(s, user, {}), user) == FreshCodes(s)
  {
    forall c ensures c in UserCodes(ReplaceCodes(s, user, {}), user) <==> c in FreshCodes(s) {}
  }

  /**
   For every user there is a run that enrols it and in which two regenerations then succeed, after which the codes
   of both can be spent.
   */
  lemma OverlapLeavesTwoSets(user: UserId) returns (es: seq<Event>, s: State, first: CodeId)
    ensures Run(INITIAL, es) == Some(s)
    ensures forall c: CodeId :: first <= c < first + 20 ==> Spendable(s, Some(c), user)
  {
    var es0, s0 := Enrolled(user);
    var es1, s1 := DeletedByBoth(es0, s0, user);
    s := CommitBoth(s1, 0, 1, user);
    first := s1.nextCode;
    es := es1 + [CommitRegeneration(0), CommitRegeneration(1)];
    Joined(INITIAL, es1, s1, [CommitRegeneration(0), CommitRegeneration(1)], s);
  }

  lemma DeletedByBoth(es0: seq<Event>, s0: State, user: UserId) returns (es: seq<Event>, s: State)
    requires Run(INITIAL, es0) == Some(s0) && s0.threads == map[]
    ensures Run(INITIAL, es) == Some(s) && CodesInv(s) && DoomsOwn(s) && 0 in s.threads && 1 in s.threads
    ensures s.threads[0] == s.threads[1] == Regenerating(user, Some(UserCodes(s0, user)))
  {
    var es1;
    es1, s := BothDelete(s0, 0, 1, user);
    es := es0 + es1;
    Joined(INITIAL, es0, s0, es1, s);
    RunKeepsDooms(INITIAL, es);
  }

  /** A run after which the user has just enrolled. */
  lemma Enrolled(user: UserId) returns (es: seq<Event>, s: State)
    ensures Run(INITIAL, es) == Some(s) && s.threads == map[] && UserCodes(s, user) == FreshCodes(INITIAL)
  {
    var es0 := EnrolmentLocks(user);
    var locked := Enrolling(user, map[0 := 0], map[0 := Completing(0, None)]);
    var es1;
    es1, s := EnrolmentCompletes(user, locked);
    es := es0 + es1;
    Joined(INITIAL, es0, locked, es1, s);
    assert FreshCodes(locked) == FreshCodes(INITIAL);
  }

  lemma Joined(s: State, es: seq<Event>, m: State, more: seq<Event>, m': State)
    requires Run(s, es) == Some(m) && Run(m, more) == Some(m')
    ensures Run(s, es + more) == Some(m')
  {
    RunAppend(s, es, more);
  }

  lemma CommitBoth(s: State, t0: Thread, t1: Thread, user: UserId) returns (m: State)
    requires CodesInv(s) && DoomsOwn(s) && t0 in s.threads && t1 in s.threads && t0 != t1
    requires s.threads[t0].Regenerating? && s.threads[t0].user == user && s.threads[t0].doomed.Some?
    requires s.threads[t1].Regenerating? && s.threads[t1].user == user && s.threads[t1].doomed.Some?
    ensures Run(s, [CommitRegeneration(t0), CommitRegeneration(t1)]) == Some(m)
    ensures forall c: CodeId :: s.nextCode <= c < s.nextCode + 2 * RECOVERY_CODES ==> Spendable(m, Some(c), user)
  {
    OverlapKeepsFirstCodes(s, t0, t1, user);
    var m1 := Step(s, CommitRegeneration(t0)).value;
    m := Step(m1, CommitRegeneration(t1)).value;
    var es := [CommitRegeneration(t0), CommitRegeneration(t1)];
    assert es[1..] == [CommitRegeneration(t1)] && es[1..][1..] == [];
    assert Run(m1, es[1..]) == Some(m);
    forall c: CodeId | s.nextCode <= c < s.nextCode + 2 * RECOVERY_CODES ensures Spendable(m, Some(c), user) {
      if c < m1.nextCode { assert c in FreshCodes(s); }
    }
  }

  lemma {:induction false} RunAppend(s: State, es: seq<Event>, more: seq<Event>)
    requires Run(s, es).Some?
    ensures Run(s, es + more) == Run(Run(s, es).value, more)
    decreases |es|
  {
    if es == [] {
      assert es + more == more;
    } else {
      assert (es + more)[1..] == es[1..] + more;
      RunAppend(Step(s, es[0]).value, es[1..], more);
    }
  }
}
