/**
 Login throttling: one row of auth_login_attempts per account, per source address and per pair of both,
 with a fixed failure window and a lockout. Times are seconds on the database clock. A login attempt is
 one atomic step: look up the three locks, then either pass or record the failure under all three keys.
 */
module LoginThrottle {
  import opened Prelude

  const RETENTION := 30 * DAY

  datatype Config = Config(window: nat, lockout: nat, accountMax: nat, ipMax: nat, accountIpMax: nat)

  /** Every limit is read by positive_i32 or positive_i64. */
  predicate ValidConfig(cfg: Config) {
    cfg.window > 0 && cfg.lockout > 0 && cfg.accountMax > 0 && cfg.ipMax > 0 && cfg.accountIpMax > 0
  }

  predicate ShortLimits(cfg: Config) {
    ValidConfig(cfg) && cfg.window <= RETENTION && cfg.lockout <= RETENTION
  }

  /** A key stands for the hash of its text; the hash is taken to be injective. */
  datatype Key = AccountKey(user: string) | IpKey(ip: string) | AccountIpKey(user: string, ip: string)
  datatype Row = Row(count: nat, windowStart: int, lockedUntil: Option<int>, updatedAt: int)
  type Table = map<Key, Row>

  function Lookup(t: Table, k: Key): Option<Row> {
    if k in t then Some(t[k]) else None
  }

  /** The row that record_login_failure leaves: a plain insert, or an upsert that restarts an elapsed window. */
  function Failure(row: Option<Row>, max: nat, cfg: Config, now: int): Row {
    if row.None? then Row(1, now, None, now)
    else
      var elapsed := row.value.windowStart <= now - cfg.window;
      var count := if elapsed then 1 else row.value.count + 1;
      Row(count, if elapsed then now else row.value.windowStart,
          if count >= max then Some(now + cfg.lockout) else None, now)
  }

  /** The lock of one key, if it is still in force. */
  function LockOf(t: Table, k: Key, now: int): Option<int> {
    if k in t && t[k].lockedUntil.Some? && t[k].lockedUntil.value > now then t[k].lockedUntil else None
  }

  function Later(a: Option<int>, b: Option<int>): Option<int> {
    if b.Some? && (a.None? || b.value > a.value) then b else a
  }

  function LatestLock(t: Table, ks: seq<Key>, now: int): Option<int> {
    if ks == [] then None else Later(LatestLock(t, ks[..|ks| - 1], now), LockOf(t, ks[|ks| - 1], now))
  }

  function Keys(user: string, ip: string): seq<Key> {
    [AccountKey(user), IpKey(ip), AccountIpKey(user, ip)]
  }

  function MaxFor(cfg: Config, k: Key): nat {
    match k
    case AccountKey(_) => cfg.accountMax
    case IpKey(_) => cfg.ipMax
    case AccountIpKey(_, _) => cfg.accountIpMax
  }

  /** Recording one failed login under several keys, with the latest lock that results. */
  function RecordAll(cfg: Config, t: Table, ks: seq<Key>, now: int): (Table, Option<int>) {
    if ks == [] then (t, None)
    else
      var (t', lock) := RecordAll(cfg, t, ks[..|ks| - 1], now);
      var k := ks[|ks| - 1];
      var row := Failure(Lookup(t', k), MaxFor(cfg, k), cfg, now);
      (t'[k := row], Later(lock, row.lockedUntil))
  }

  function Pruned(t: Table, now: int): Table {
    map k | k in t && !(t[k].updatedAt < now - RETENTION) :: t[k]
  }

  datatype Event =
    | Attempt(at: int, user: string, ip: string, valid: bool)
    | SessionCreated(at: int, user: string, ip: string)
    | Prune(at: int)

  datatype Outcome = RateLimited(until: int) | Failed(lock: Option<int>) | Accepted | Silent

  function Step(cfg: Config, t: Table, e: Event): (Table, Outcome) {
    match e
    case Attempt(now, user, ip, valid) =>
      var latest := LatestLock(t, Keys(user, ip), now);
      if latest.Some? then (t, RateLimited(latest.value))
      else if valid then (t, Accepted)
      else
        var (t', lock) := RecordAll(cfg, t, Keys(user, ip), now);
        (t', Failed(lock))
    case SessionCreated(_, user, ip) => (t - {AccountKey(user), AccountIpKey(user, ip)}, Silent)
    case Prune(now) => (Pruned(t, now), Silent)
  }

  function Outcomes(cfg: Config, t: Table, es: seq<Event>): seq<Outcome>
    decreases |es|
  {
    if es == [] then []
    else
      var (t', o) := Step(cfg, t, es[0]);
      (if es[0].Prune? then [] else [o]) + Outcomes(cfg, t', es[1..])
  }

  predicate Monotone(es: seq<Event>) {
    forall i, j :: 0 <= i < j < |es| ==> es[i].at <= es[j].at
  }

  /** One failure recorded under one key, in terms of the rows before and after. */
  predicate CountedUnder(t: Table, t': Table, k: Key, max: nat, cfg: Config, now: int) {
    && k in t' && t'[k].updatedAt == now
    && (if k in t && now < t[k].windowStart + cfg.window
        then t'[k].windowStart == t[k].windowStart && t'[k].count == t[k].count + 1
        else t'[k].windowStart == now && t'[k].count == 1)
    && t'[k].lockedUntil == if k in t && t'[k].count >= max then Some(now + cfg.lockout) else None
  }

  /** The lookup of three keys answers with a lock in force that no other one exceeds, if there is any. */
  lemma LatestOfThree(t: Table, user: string, ip: string, now: int)
    ensures var ks, latest := [AccountKey(user), IpKey(ip), AccountIpKey(user, ip)], LatestLock(t, Keys(user, ip), now);
            && (latest.Some? <==>
                  exists k :: k in ks && k in t && t[k].lockedUntil.Some? && t[k].lockedUntil.value > now)
            && (latest.Some? ==>
                  && latest.value > now
                  && (exists k :: k in ks && k in t && t[k].lockedUntil == latest)
                  && forall k :: k in ks && k in t && t[k].lockedUntil.Some?
                       ==> t[k].lockedUntil.value <= latest.value)
  {
    ThreeKeys(Config(0, 0, 0, 0, 0), t, user, ip, now);
    var ks := [AccountKey(user), IpKey(ip), AccountIpKey(user, ip)];
    assert ks[0] in ks && ks[1] in ks && ks[2] in ks;
  }

  // ---------------------------------------------------------------- the tables as the repository updates them

  class LoginAttempts {
    var rows: Table

    constructor ()
      ensures rows == map[]
    {
      rows := map[];
    }

    /**
     repositories::auth_sessions::record_login_failure: the failure is counted in a window that has not elapsed,
     opened at `now` unless the row's window still runs; only a row that existed can lock, and exactly at the limit.
     */
    method RecordLoginFailure(key: Key, maxFailures: nat, cfg: Config, now: int) returns (lock: Option<int>)
      modifies this
      ensures forall k :: k != key ==> Lookup(rows, k) == Lookup(old(rows), k)
      ensures key in rows && rows[key].updatedAt == now && (cfg.window > 0 ==> now < rows[key].windowStart + cfg.window)
      ensures if key in old(rows) && now < old(rows)[key].windowStart + cfg.window
              then rows[key].windowStart == old(rows)[key].windowStart && rows[key].count == old(rows)[key].count + 1
              else rows[key].windowStart == now && rows[key].count == 1
      ensures lock == rows[key].lockedUntil
           == if key in old(rows) && rows[key].count >= maxFailures then Some(now + cfg.lockout) else None
      ensures rows == old(rows)[key := Failure(Lookup(old(rows), key), maxFailures, cfg, now)]
    {
      if key !in rows {
        rows := rows[key := Row(1, now, None, now)];
      } else {
        var elapsed := rows[key].windowStart <= now - cfg.window;
        var count := if elapsed then 1 else rows[key].count + 1;
        rows := rows[key := Row(count, if elapsed then now else rows[key].windowStart,
                                if count >= maxFailures then Some(now + cfg.lockout) else None, now)];
      }
      lock := rows[key].lockedUntil;
    }

    /** services::auth::locked_until: the latest of the locks in force. */
    method LockedUntil(keys: seq<Key>, now: int) returns (latest: Option<int>)
      ensures latest == LatestLock(rows, keys, now)
    {
      latest := None;
      for i := 0 to |keys|
        invariant latest == LatestLock(rows, keys[..i], now)
      {
        assert keys[..i + 1][..i] == keys[..i];
        var current := LockOf(rows, keys[i], now);
        if current.Some? && (latest.None? || current.value > latest.value) {
          latest := current;
        }
      }
      assert keys[..|keys|] == keys;
    }

    /** services::auth::record_failed_login */
    method RecordFailedLogin(cfg: Config, keys: seq<Key>, now: int) returns (lockedUntil: Option<int>)
      modifies this
      ensures (rows, lockedUntil) == RecordAll(cfg, old(rows), keys, now)
    {
      lockedUntil := None;
      for i := 0 to |keys|
        invariant (rows, lockedUntil) == RecordAll(cfg, old(rows), keys[..i], now)
      {
        assert keys[..i + 1][..i] == keys[..i];
        var current := RecordLoginFailure(keys[i], MaxFor(cfg, keys[i]), cfg, now);
        if current.Some? && (lockedUntil.None? || current.value > lockedUntil.value) {
          lockedUntil := current;
        }
      }
      assert keys[..|keys|] == keys;
    }

    /**
     services::auth::login up to the point where a session or an MFA challenge is created. While the account, the
     address or the pair of both is locked, every password is answered with the latest of these locks and nothing
     is recorded; otherwise the password decides, and a wrong one is recorded under all three.
     */
    method Login(cfg: Config, user: string, ip: string, valid: bool, now: int) returns (outcome: Outcome)
      modifies this
      ensures outcome.RateLimited? <==>
        exists k :: k in [AccountKey(user), IpKey(ip), AccountIpKey(user, ip)] && k in old(rows)
                    && old(rows)[k].lockedUntil.Some? && old(rows)[k].lockedUntil.value > now
      ensures outcome.RateLimited? ==>
        && outcome.until > now
        && (exists k :: k in [AccountKey(user), IpKey(ip), AccountIpKey(user, ip)] && k in old(rows)
                        && old(rows)[k].lockedUntil == Some(outcome.until))
        && (forall k ::
              k in [AccountKey(user), IpKey(ip), AccountIpKey(user, ip)] && k in old(rows)
              && old(rows)[k].lockedUntil.Some?
              ==> old(rows)[k].lockedUntil.value <= outcome.until)
      ensures !outcome.RateLimited? ==> (outcome == Accepted <==> valid)
      ensures !outcome.Failed? ==> rows == old(rows)
      ensures outcome.Failed? ==>
        && rows.Keys == old(rows).Keys + {AccountKey(user), IpKey(ip), AccountIpKey(user, ip)}
        && (forall k :: k in old(rows) && k !in [AccountKey(user), IpKey(ip), AccountIpKey(user, ip)]
              ==> rows[k] == old(rows)[k])
        && CountedUnder(old(rows), rows, AccountKey(user), cfg.accountMax, cfg, now)
        && CountedUnder(old(rows), rows, IpKey(ip), cfg.ipMax, cfg, now)
        && CountedUnder(old(rows), rows, AccountIpKey(user, ip), cfg.accountIpMax, cfg, now)
      ensures outcome.Failed? ==>
        outcome.lock == if exists k :: k in [AccountKey(user), IpKey(ip), AccountIpKey(user, ip)]
                                       && rows[k].lockedUntil.Some? then Some(now + cfg.lockout) else None
      ensures (rows, outcome) == Step(cfg, old(rows), Attempt(now, user, ip, valid))
    {
      LatestOfThree(rows, user, ip, now);
      ThreeKeys(cfg, rows, user, ip, now);
      var keys := Keys(user, ip);
      var latest := LockedUntil(keys, now);
      if latest.Some? {
        outcome := RateLimited(latest.value);
      } else if valid {
        outcome := Accepted;
      } else {
        var lock := RecordFailedLogin(cfg, keys, now);
        outcome := Failed(lock);
      }
    }

    /** The two clear_login_failures of create_login_session: the source address is never cleared. */
    method ClearAfterLogin(user: string, ip: string)
      modifies this
      ensures rows == old(rows) - {AccountKey(user), AccountIpKey(user, ip)}
      ensures forall cfg: Config, now: int :: Step(cfg, old(rows), SessionCreated(now, user, ip)) == (rows, Silent)
    {
      rows := rows - {AccountKey(user)};
      rows := rows - {AccountIpKey(user, ip)};
    }

    /** The DELETE of prune: rows untouched for 30 days go, and with them no lock that is or will be in force. */
    method PruneAttempts(now: int)
      modifies this
      ensures rows == Pruned(old(rows), now)
      ensures forall k :: k in rows <==> k in old(rows) && now <= old(rows)[k].updatedAt + 30 * 86_400
      ensures forall k :: k in rows ==> rows[k] == old(rows)[k]
      ensures forall k: Key, cfg: Config, later: int ::
                ShortLimits(cfg) && Bounded(cfg, old(rows), now) && now <= later
                ==> LockOf(rows, k, later) == LockOf(old(rows), k, later)
    {
      rows := map k | k in rows && !(rows[k].updatedAt < now - RETENTION) :: rows[k];
    }
  }

  // ---------------------------------------------------------------- what one attempt does to each key

  /** The three lookups and the three upserts of one attempt, written out. */
  lemma ThreeKeys(cfg: Config, t: Table, user: string, ip: string, now: int)
    ensures LatestLock(t, Keys(user, ip), now)
         == Later(Later(LockOf(t, AccountKey(user), now), LockOf(t, IpKey(ip), now)),
             LockOf(t, AccountIpKey(user, ip), now))
    ensures var r1 := Failure(Lookup(t, AccountKey(user)), cfg.accountMax, cfg, now);
            var r2 := Failure(Lookup(t, IpKey(ip)), cfg.ipMax, cfg, now);
            var r3 := Failure(Lookup(t, AccountIpKey(user, ip)), cfg.accountIpMax, cfg, now);
            RecordAll(cfg, t, Keys(user, ip), now)
            == (t[AccountKey(user) := r1][IpKey(ip) := r2][AccountIpKey(user, ip) := r3],
                Later(Later(r1.lockedUntil, r2.lockedUntil), r3.lockedUntil))
  {
    var ks := Keys(user, ip);
    assert ks[..2][..1] == ks[..1] && ks[..1][..0] == [] && ks[..2][1] == ks[1] && ks[..1][0] == ks[0];
    assert LatestLock(t, ks[..1], now) == Later(None, LockOf(t, ks[0], now));
    assert LatestLock(t, ks[..2], now) == Later(LatestLock(t, ks[..1], now), LockOf(t, ks[1], now));
    var (t1, l1) := RecordAll(cfg, t, ks[..1], now);
    assert RecordAll(cfg, t, ks[..1][..0], now) == (t, None);
    assert t1 == t[ks[0] := Failure(Lookup(t, ks[0]), cfg.accountMax, cfg, now)];
    var (t2, l2) := RecordAll(cfg, t, ks[..2], now);
    assert t2 == t1[ks[1] := Failure(Lookup(t, ks[1]), cfg.ipMax, cfg, now)];
  }

  // ---------------------------------------------------------------- the failures recorded for one source address

  /** A recorded failure: when, in which window, and as which failure of that window. */
  datatype Hit = Hit(at: int, window: int, nth: nat)

  predicate Records(cfg: Config, t: Table, e: Event, ip: string) {
    e.Attempt? && e.ip == ip && Step(cfg, t, e).1.Failed?
  }

  /** The failure an event records for the address, if any. */
  function HitOf(cfg: Config, t: Table, e: Event, ip: string): seq<Hit> {
    var t' := Step(cfg, t, e).0;
    if Records(cfg, t, e, ip) && IpKey(ip) in t'
    then [Hit(e.at, t'[IpKey(ip)].windowStart, t'[IpKey(ip)].count)] else []
  }

  function Hits(cfg: Config, t: Table, es: seq<Event>, ip: string): seq<Hit>
    decreases |es|
  {
    if es == [] then [] else HitOf(cfg, t, es[0], ip) + Hits(cfg, Step(cfg, t, es[0]).0, es[1..], ip)
  }

  /**
   The failure of a window from which on every failure locks. The insert that creates a row never
   locks, so a limit of one behaves as a limit of two.
   */
  function Threshold(cfg: Config): nat {
    if cfg.ipMax >= 2 then cfg.ipMax else 2
  }

  /** A new window opens when the old one has elapsed, or when its row was pruned. */
  predicate Reopens(cfg: Config, a: Hit, now: int) {
    a.window + cfg.window <= now || a.at + RETENTION < now
  }

  /** How a failure may follow another one; a lock longer than the retention may be pruned away. */
  predicate Linked(cfg: Config, a: Hit, b: Hit) {
    || (b.nth == 1 && b.window == b.at && Reopens(cfg, a, b.at)
        && (a.nth >= Threshold(cfg) && cfg.lockout <= RETENTION ==> a.at + cfg.lockout <= b.at))
    || (b.nth == a.nth + 1 && b.window == a.window && a.at <= b.at < a.window + cfg.window
        && (a.nth >= Threshold(cfg) ==> a.at + cfg.lockout <= b.at))
  }

  predicate Chained(cfg: Config, hits: seq<Hit>) {
    && (hits != [] ==> hits[0].nth == 1 && hits[0].window == hits[0].at)
    && (forall i, j :: 0 <= i < |hits| - 1 && j == i + 1 ==> Linked(cfg, hits[i], hits[j]))
  }

  /** The row of the address agrees with the last failure recorded for it. */
  predicate Agrees(cfg: Config, row: Option<Row>, prev: Option<Hit>, now: int) {
    && (row.Some? ==>
          && prev == Some(Hit(row.value.updatedAt, row.value.windowStart, row.value.count))
          && row.value.updatedAt <= now
          && row.value.windowStart <= row.value.updatedAt
          && (row.value.count >= Threshold(cfg) ==> row.value.lockedUntil == Some(row.value.updatedAt + cfg.lockout)))
    && (row.None? && prev.Some? ==>
          && Reopens(cfg, prev.value, now)
          && (cfg.lockout <= RETENTION ==> prev.value.at + cfg.lockout <= now))
  }

  lemma FailureLinks(cfg: Config, t: Table, ip: string, prev: Option<Hit>, now: int, past: int)
    requires past <= now
    requires Agrees(cfg, Lookup(t, IpKey(ip)), prev, past) && LockOf(t, IpKey(ip), now).None?
    ensures var row := Failure(Lookup(t, IpKey(ip)), cfg.ipMax, cfg, now);
            var hit := Hit(now, row.windowStart, row.count);
            && Agrees(cfg, Some(row), Some(hit), now)
            && Continues(cfg, prev, hit)
  {}

  /** Every event either records a failure that follows on, or leaves the agreement as it is. */
  lemma StepKeepsAgreement(cfg: Config, t: Table, e: Event, ip: string, prev: Option<Hit>, past: int)
    requires past <= e.at
    requires Agrees(cfg, Lookup(t, IpKey(ip)), prev, past)
    ensures var row' := Lookup(Step(cfg, t, e).0, IpKey(ip));
            var hits := HitOf(cfg, t, e, ip);
            if hits == [] then Agrees(cfg, row', prev, e.at)
            else |hits| == 1 && Agrees(cfg, row', Some(hits[0]), e.at) && Continues(cfg, prev, hits[0])
  {
    var t' := Step(cfg, t, e).0;
    if e.Attempt? && Step(cfg, t, e).1.Failed? {
      ThreeKeys(cfg, t, e.user, e.ip, e.at);
      if e.ip == ip {
        FailureLinks(cfg, t, ip, prev, e.at, past);
      } else {
        assert Lookup(t', IpKey(ip)) == Lookup(t, IpKey(ip));
      }
    } else {
      assert Lookup(t', IpKey(ip)) == Lookup(t, IpKey(ip)) || (e.Prune? && Lookup(t', IpKey(ip)) == None);
    }
  }

  /** A failure that may come right after `prev`, or first. */
  predicate Continues(cfg: Config, prev: Option<Hit>, hit: Hit) {
    if prev.Some? then Linked(cfg, prev.value, hit) else hit.nth == 1 && hit.window == hit.at
  }

  predicate ChainedAfter(cfg: Config, prev: Option<Hit>, hits: seq<Hit>) {
    && (hits != [] ==> Continues(cfg, prev, hits[0]))
    && (forall i, j :: 0 <= i < |hits| - 1 && j == i + 1 ==> Linked(cfg, hits[i], hits[j]))
  }

  lemma ChainPrepends(cfg: Config, prev: Option<Hit>, hit: Hit, rest: seq<Hit>)
    requires Continues(cfg, prev, hit) && ChainedAfter(cfg, Some(hit), rest)
    ensures ChainedAfter(cfg, prev, [hit] + rest)
  {}

  lemma {:induction false} HitsAreLinked(cfg: Config, t: Table, es: seq<Event>, ip: string, prev: Option<Hit>,
      past: int)
    requires Monotone(es)
    requires es != [] ==> past <= es[0].at
    requires Agrees(cfg, Lookup(t, IpKey(ip)), prev, past)
    ensures ChainedAfter(cfg, prev, Hits(cfg, t, es, ip))
    decreases |es|
  {
    if es != [] {
      StepKeepsAgreement(cfg, t, es[0], ip, prev, past);
      var hit, t' := HitOf(cfg, t, es[0], ip), Step(cfg, t, es[0]).0;
      var rest := Hits(cfg, t', es[1..], ip);
      if hit == [] {
        HitsAreLinked(cfg, t', es[1..], ip, prev, es[0].at);
        assert hit + rest == rest;
      } else {
        HitsAreLinked(cfg, t', es[1..], ip, Some(hit[0]), es[0].at);
        ChainPrepends(cfg, prev, hit[0], rest);
        assert hit == [hit[0]];
      }
    }
  }

  // ---------------------------------------------------------------- counting

  function CeilDiv(a: nat, b: nat): (r: nat)
    requires b > 0
    ensures a <= r * b < a + b
  {
    (a + b - 1) / b
  }

  /** The most failures one window can hold: m + ceil(W / L) - 1 for a limit m of at least two. */
  function WindowBound(cfg: Config): nat
    requires ValidConfig(cfg)
  {
    Threshold(cfg) - 1 + CeilDiv(cfg.window, cfg.lockout)
  }

  lemma MulMonotone(a: nat, b: nat, c: nat)
    requires a <= b
    ensures a * c <= b * c
  {}

  /** Inside a window the failures after the first lock are a lockout apart. */
  lemma {:induction false} HitSpacing(cfg: Config, hits: seq<Hit>, i: nat)
    requires ValidConfig(cfg) && Chained(cfg, hits) && i < |hits|
    ensures 1 <= hits[i].nth && hits[i].window <= hits[i].at < hits[i].window + cfg.window
    ensures hits[i].nth >= Threshold(cfg) ==>
        hits[i].at >= hits[i].window + (hits[i].nth - Threshold(cfg)) * cfg.lockout
  {
    if i > 0 {
      HitSpacing(cfg, hits, i - 1);
      assert Linked(cfg, hits[i - 1], hits[i]);
    }
  }

  lemma NthBound(cfg: Config, hits: seq<Hit>, i: nat)
    requires ValidConfig(cfg) && Chained(cfg, hits) && i < |hits|
    ensures 1 <= hits[i].nth <= WindowBound(cfg)
  {
    HitSpacing(cfg, hits, i);
    var c := CeilDiv(cfg.window, cfg.lockout);
    if hits[i].nth > WindowBound(cfg) {
      MulMonotone(c, hits[i].nth - Threshold(cfg), cfg.lockout);
    }
  }

  function CountIn(hits: seq<Hit>, window: int): nat {
    if hits == [] then 0
    else CountIn(hits[..|hits| - 1], window) + (if hits[|hits| - 1].window == window then 1 else 0)
  }

  /** The nth of the last failure is the number of failures in its window, and no later window has any. */
  lemma {:induction false} CountIsNth(cfg: Config, hits: seq<Hit>)
    requires ValidConfig(cfg) && Chained(cfg, hits) && hits != []
    ensures var last := hits[|hits| - 1];
            CountIn(hits, last.window) == last.nth && forall w :: w > last.window ==> CountIn(hits, w) == 0
    ensures forall w :: CountIn(hits, w) <= WindowBound(cfg)
  {
    var n := |hits| - 1;
    NthBound(cfg, hits, n);
    if n > 0 {
      CountIsNth(cfg, hits[..n]);
      HitSpacing(cfg, hits, n - 1);
      assert Linked(cfg, hits[n - 1], hits[n]);
      assert hits[..n][n - 1] == hits[n - 1];
    } else {
      assert hits[..n] == [];
    }
  }

  /** How far apart windows start at least: pruning can cut short a window that is longer than the retention. */
  function Period(cfg: Config): nat {
    if cfg.window <= RETENTION then cfg.window else RETENTION
  }

  /** From failure i to failure j there are at most k full windows plus the current one. */
  lemma {:induction false} WindowsBetween(cfg: Config, hits: seq<Hit>, i: nat, j: nat) returns (k: nat)
    requires ValidConfig(cfg) && Chained(cfg, hits) && i <= j < |hits|
    ensures hits[i].window + k * Period(cfg) <= hits[j].window && hits[i].at <= hits[j].at
    ensures k > 0 ==> hits[i].at + (k - 1) * Period(cfg) < hits[j].window
    ensures j - i + 1 <= k * WindowBound(cfg) + hits[j].nth
    decreases j
  {
    NthBound(cfg, hits, j);
    if i == j {
      k := 0;
    } else {
      k := WindowsBetween(cfg, hits, i, j - 1);
      NthBound(cfg, hits, j - 1);
      HitSpacing(cfg, hits, j - 1);
      assert Linked(cfg, hits[j - 1], hits[j]);
      if hits[j].window != hits[j - 1].window {
        Distribute(k, WindowBound(cfg));
        Distribute(k, Period(cfg));
        if k > 0 { Distribute(k - 1, Period(cfg)); }
        k := k + 1;
      }
    }
  }

  lemma AtMostFullWindows(k: nat, w: nat, d: nat)
    requires w > 0 && k * w <= d
    ensures k <= d / w
  {
    assert d < (d / w + 1) * w;
    if k > d / w {
      MulMonotone(d / w + 1, k, w);
    }
  }

  // ---------------------------------------------------------------- main results on the bound

  lemma RunIsChained(cfg: Config, es: seq<Event>, ip: string)
    requires Monotone(es)
    ensures Chained(cfg, Hits(cfg, map[], es, ip))
  {
    HitsAreLinked(cfg, map[], es, ip, None, if es == [] then 0 else es[0].at);
  }

  /** In any run, whatever the accounts tried, an address records at most WindowBound failures in a window. */
  lemma FailuresPerWindow(cfg: Config, es: seq<Event>, ip: string, window: int)
    requires ValidConfig(cfg) && Monotone(es)
    ensures CountIn(Hits(cfg, map[], es, ip), window) <= WindowBound(cfg)
  {
    RunIsChained(cfg, es, ip);
    if Hits(cfg, map[], es, ip) != [] {
      CountIsNth(cfg, Hits(cfg, map[], es, ip));
    }
  }

  /** Over a span of d seconds that starts with the first failure of a window. */
  lemma FailuresFromWindowStart(cfg: Config, es: seq<Event>, ip: string, i: nat, j: nat, d: nat)
    requires ValidConfig(cfg) && Monotone(es)
    requires var hits := Hits(cfg, map[], es, ip);
             i <= j < |hits| && hits[i].nth == 1 && hits[j].at <= hits[i].at + d
    ensures j - i + 1 <= (d / Period(cfg) + 1) * WindowBound(cfg)
  {
    var hits := Hits(cfg, map[], es, ip);
    RunIsChained(cfg, es, ip);
    var k := WindowsBetween(cfg, hits, i, j);
    HitSpacing(cfg, hits, j);
    NthBound(cfg, hits, j);
    assert hits[i].window == hits[i].at by {
      if i > 0 {
        assert Linked(cfg, hits[i - 1], hits[i]);
        NthBound(cfg, hits, i - 1);
      }
    }
    AtMostFullWindows(k, Period(cfg), d);
    MulMonotone(k + 1, d / Period(cfg) + 1, WindowBound(cfg));
    assert (k + 1) * WindowBound(cfg) == k * WindowBound(cfg) + WindowBound(cfg);
  }

  /** k windows that start within d seconds. */
  lemma SpanWindows(k: nat, w: nat, d: nat)
    requires w > 0 && (k == 0 || (k - 1) * w < d)
    ensures k <= CeilDiv(d, w)
  {
    if k > CeilDiv(d, w) { MulMonotone(CeilDiv(d, w), k - 1, w); }
  }

  /** Over any span of d seconds, wherever it starts. */
  lemma FailuresInAnySpan(cfg: Config, es: seq<Event>, ip: string, i: nat, j: nat, d: nat)
    requires ValidConfig(cfg) && Monotone(es)
    requires var hits := Hits(cfg, map[], es, ip);
             i <= j < |hits| && hits[j].at <= hits[i].at + d
    ensures j - i + 1 <= (CeilDiv(d, Period(cfg)) + 1) * WindowBound(cfg)
  {
    RunIsChained(cfg, es, ip);
    ChainInAnySpan(cfg, Hits(cfg, map[], es, ip), i, j, d);
  }

  lemma ChainInAnySpan(cfg: Config, hits: seq<Hit>, i: nat, j: nat, d: nat)
    requires ValidConfig(cfg) && Chained(cfg, hits) && i <= j < |hits| && hits[j].at <= hits[i].at + d
    ensures j - i + 1 <= (CeilDiv(d, Period(cfg)) + 1) * WindowBound(cfg)
  {
    var k := WindowsBetween(cfg, hits, i, j);
    HitSpacing(cfg, hits, i);
    HitSpacing(cfg, hits, j);
    NthBound(cfg, hits, j);
    SpanWindows(k, Period(cfg), d);
    MulMonotone(k + 1, CeilDiv(d, Period(cfg)) + 1, WindowBound(cfg));
    assert (k + 1) * WindowBound(cfg) == k * WindowBound(cfg) + WindowBound(cfg);
  }

  // ---------------------------------------------------------------- the bound is exact, and where it is not

  /** A guess from one address at the n-th account, so that only the limit of the address matters. */
  function Guess(n: nat, at: int): Event {
    Attempt(at, seq(n, _ => 'a'), "ip", false)
  }

  function Guesses(n: nat, times: seq<int>): seq<Event>
    decreases |times|
  {
    if times == [] then [] else [Guess(n, times[0])] + Guesses(n + 1, times[1..])
  }

  /** The failures of the address alone, as long as its lock never stands in the way. */
  function Trace(cfg: Config, row: Option<Row>, times: seq<int>): seq<Hit>
    decreases |times|
  {
    if times == [] then []
    else
      var row' := Failure(row, cfg.ipMax, cfg, times[0]);
      [Hit(times[0], row'.windowStart, row'.count)] + Trace(cfg, Some(row'), times[1..])
  }

  predicate NeverLocked(cfg: Config, row: Option<Row>, times: seq<int>)
    decreases |times|
  {
    times == [] ||
    (&& (row.Some? && row.value.lockedUntil.Some? ==> row.value.lockedUntil.value <= times[0])
     && NeverLocked(cfg, Some(Failure(row, cfg.ipMax, cfg, times[0])), times[1..]))
  }

  /** Accounts from the n-th on have no row yet. */
  predicate FreshFrom(t: Table, n: nat) {
    forall k :: k in t && !k.IpKey? ==> |k.user| < n
  }

  /** One guess at a new account, with no lock on the address in force. */
  lemma GuessStep(cfg: Config, t: Table, n: nat, row: Option<Row>, at: int)
    requires FreshFrom(t, n) && Lookup(t, IpKey("ip")) == row
    requires row.Some? && row.value.lockedUntil.Some? ==> row.value.lockedUntil.value <= at
    ensures var t', row' := Step(cfg, t, Guess(n, at)).0, Failure(row, cfg.ipMax, cfg, at);
            && FreshFrom(t', n + 1) && Lookup(t', IpKey("ip")) == Some(row')
            && HitOf(cfg, t, Guess(n, at), "ip") == [Hit(at, row'.windowStart, row'.count)]
  {
    ThreeKeys(cfg, t, Guess(n, at).user, "ip", at);
  }

  lemma {:induction false} GuessesTrace(cfg: Config, t: Table, n: nat, row: Option<Row>, times: seq<int>)
    requires FreshFrom(t, n) && Lookup(t, IpKey("ip")) == row && NeverLocked(cfg, row, times)
    ensures Hits(cfg, t, Guesses(n, times), "ip") == Trace(cfg, row, times)
    decreases |times|
  {
    if times != [] {
      var e := Guess(n, times[0]);
      var t' := Step(cfg, t, e).0;
      GuessStep(cfg, t, n, row, times[0]);
      assert Guesses(n, times)[1..] == Guesses(n + 1, times[1..]);
      GuessesTrace(cfg, t', n + 1, Some(Failure(row, cfg.ipMax, cfg, times[0])), times[1..]);
    }
  }

  function Final(cfg: Config, t: Table, es: seq<Event>): Table
    decreases |es|
  {
    if es == [] then t else Final(cfg, Step(cfg, t, es[0]).0, es[1..])
  }

  lemma {:induction false} HitsAppend(cfg: Config, t: Table, a: seq<Event>, b: seq<Event>, ip: string)
    ensures Hits(cfg, t, a + b, ip) == Hits(cfg, t, a, ip) + Hits(cfg, Final(cfg, t, a), b, ip)
    decreases |a|
  {
    if a == [] {
      assert a + b == b;
    } else {
      assert (a + b)[1..] == a[1..] + b;
      HitsAppend(cfg, Step(cfg, t, a[0]).0, a[1..], b, ip);
    }
  }

  /** After guesses that no lock stopped, the row of the address is as old as the last of them. */
  lemma {:induction false} GuessesEnd(cfg: Config, t: Table, n: nat, row: Option<Row>, times: seq<int>)
    requires FreshFrom(t, n) && Lookup(t, IpKey("ip")) == row && NeverLocked(cfg, row, times)
    ensures var end := Final(cfg, t, Guesses(n, times));
            && FreshFrom(end, n + |times|)
            && (times != [] ==> IpKey("ip") in end && end[IpKey("ip")].updatedAt == times[|times| - 1])
    decreases |times|
  {
    if times != [] {
      var e := Guess(n, times[0]);
      var t' := Step(cfg, t, e).0;
      GuessStep(cfg, t, n, row, times[0]);
      assert Guesses(n, times)[1..] == Guesses(n + 1, times[1..]);
      GuessesEnd(cfg, t', n + 1, Some(Failure(row, cfg.ipMax, cfg, times[0])), times[1..]);
    }
  }

  lemma {:induction false} GuessesInOrder(n: nat, times: seq<int>)
    ensures |Guesses(n, times)| == |times| && forall i :: 0 <= i < |times| ==> Guesses(n, times)[i].at == times[i]
    decreases |times|
  {
    if times != [] { GuessesInOrder(n + 1, times[1..]); }
  }

  /** The row a recorded failure leaves. */
  function RowAfter(cfg: Config, hit: Hit): Row {
    Row(hit.nth, hit.window, if hit.nth >= Threshold(cfg) then Some(hit.at + cfg.lockout) else None, hit.at)
  }

  /** A failure that a guess at its time produces right after `a`; restarting a window with a limit of one locks. */
  predicate Follows(cfg: Config, a: Hit, b: Hit) {
    && Linked(cfg, a, b) && a.at <= b.at
    && (a.nth >= Threshold(cfg) ==> a.at + cfg.lockout <= b.at)
    && (cfg.ipMax >= 2 || b.nth > 1)
    && (b.nth == 1 ==> a.window + cfg.window <= b.at)
  }

  predicate Plausible(cfg: Config, hits: seq<Hit>) {
    forall i, j :: 0 <= i < |hits| - 1 && j == i + 1 ==> Follows(cfg, hits[i], hits[j])
  }

  function TimesOf(hits: seq<Hit>): (r: seq<int>)
    ensures |r| == |hits| && forall i :: 0 <= i < |r| ==> r[i] == hits[i].at
  {
    seq(|hits|, i requires 0 <= i < |hits| => hits[i].at)
  }

  lemma {:induction false} PlausibleTrace(cfg: Config, prev: Hit, hits: seq<Hit>)
    requires Plausible(cfg, [prev] + hits)
    ensures NeverLocked(cfg, Some(RowAfter(cfg, prev)), TimesOf(hits))
    ensures Trace(cfg, Some(RowAfter(cfg, prev)), TimesOf(hits)) == hits
    decreases |hits|
  {
    if hits != [] {
      var all := [prev] + hits;
      assert Follows(cfg, all[0], all[1]);
      assert Failure(Some(RowAfter(cfg, prev)), cfg.ipMax, cfg, hits[0].at) == RowAfter(cfg, hits[0]);
      assert [hits[0]] + hits[1..] == hits == all[1..];
      assert Plausible(cfg, hits) by {
        forall i | 0 <= i < |hits| - 1 ensures Follows(cfg, hits[i], hits[i + 1]) {
          assert Follows(cfg, all[i + 1], all[i + 2]);
        }
      }
      PlausibleTrace(cfg, hits[0], hits[1..]);
      assert TimesOf(hits)[1..] == TimesOf(hits[1..]);
    }
  }

  lemma {:induction false} PlausibleSorted(cfg: Config, hits: seq<Hit>, i: nat, j: nat)
    requires Plausible(cfg, hits) && i <= j < |hits|
    ensures hits[i].at <= hits[j].at
    decreases j - i
  {
    if i < j {
      PlausibleSorted(cfg, hits, i, j - 1);
      assert Follows(cfg, hits[j - 1], hits[j]);
    }
  }

  predicate StartsWindow(hits: seq<Hit>) {
    hits != [] && hits[0].nth == 1 && hits[0].window == hits[0].at
  }

  /** Guesses at the times of a plausible sequence record exactly it, if the address has no row yet. */
  lemma PlausibleFrom(cfg: Config, t: Table, n: nat, hits: seq<Hit>)
    requires Plausible(cfg, hits) && StartsWindow(hits) && FreshFrom(t, n) && IpKey("ip") !in t
    ensures NeverLocked(cfg, None, TimesOf(hits)) && Hits(cfg, t, Guesses(n, TimesOf(hits)), "ip") == hits
  {
    var times := TimesOf(hits);
    assert [hits[0]] + hits[1..] == hits;
    PlausibleTrace(cfg, hits[0], hits[1..]);
    assert times[1..] == TimesOf(hits[1..]);
    assert Failure(None, cfg.ipMax, cfg, times[0]) == RowAfter(cfg, hits[0]);
    GuessesTrace(cfg, t, n, None, times);
  }

  lemma GuessesMonotone(cfg: Config, n: nat, hits: seq<Hit>)
    requires Plausible(cfg, hits)
    ensures Monotone(Guesses(n, TimesOf(hits))) && |Guesses(n, TimesOf(hits))| == |hits|
    ensures forall i :: 0 <= i < |hits| ==> Guesses(n, TimesOf(hits))[i].at == hits[i].at
  {
    GuessesInOrder(n, TimesOf(hits));
    forall i, j | 0 <= i < j < |hits| ensures hits[i].at <= hits[j].at {
      PlausibleSorted(cfg, hits, i, j);
    }
  }

  /** The other direction of HitsAreLinked: some run records exactly a given plausible sequence. */
  lemma PlausibleIsRecorded(cfg: Config, hits: seq<Hit>) returns (es: seq<Event>)
    requires Plausible(cfg, hits) && StartsWindow(hits)
    ensures Monotone(es) && Hits(cfg, map[], es, "ip") == hits
  {
    es := Guesses(0, TimesOf(hits));
    GuessesMonotone(cfg, 0, hits);
    PlausibleFrom(cfg, map[], 0, hits);
  }

  lemma PlausibleConcat(cfg: Config, a: seq<Hit>, b: seq<Hit>)
    requires Plausible(cfg, a) && Plausible(cfg, b)
    requires a != [] && b != [] ==> Follows(cfg, a[|a| - 1], b[0])
    ensures Plausible(cfg, a + b)
  {}

  /** The n-th failure of a window that starts at `window` when all tolerated ones come at `at`. */
  function BurstHit(cfg: Config, window: int, at: int, n: nat): Hit {
    Hit(at + (if n <= Threshold(cfg) then 0 else (n - Threshold(cfg)) * cfg.lockout), window, n)
  }

  /** The failures `from` to `to` of a window: all tolerated ones at once, then one at the end of each lockout. */
  function Burst(cfg: Config, window: int, at: int, from: nat, to: nat): (r: seq<Hit>)
    requires from <= to + 1
    ensures |r| == to + 1 - from && forall i :: 0 <= i < |r| ==> r[i] == BurstHit(cfg, window, at, from + i)
  {
    seq(to + 1 - from, i requires 0 <= i => BurstHit(cfg, window, at, from + i))
  }

  lemma BurstIsPlausible(cfg: Config, window: int, at: int, from: nat, to: nat)
    requires ValidConfig(cfg) && 1 <= from <= to + 1 && window <= at
    requires from <= to ==> BurstHit(cfg, window, at, to).at < window + cfg.window
    ensures Plausible(cfg, Burst(cfg, window, at, from, to))
  {
    var hits := Burst(cfg, window, at, from, to);
    forall i | 0 <= i < |hits| - 1 ensures Follows(cfg, hits[i], hits[i + 1]) {
      BurstStep(cfg, window, at, from + i, to);
    }
  }

  /** One failure of a burst follows the one before it. */
  lemma BurstStep(cfg: Config, window: int, at: int, n: nat, to: nat)
    requires ValidConfig(cfg) && 1 <= n < to && window <= at
    requires BurstHit(cfg, window, at, to).at < window + cfg.window
    ensures Follows(cfg, BurstHit(cfg, window, at, n), BurstHit(cfg, window, at, n + 1))
  {
    BurstGrows(cfg, window, at, n + 1, to);
    BurstSpacing(cfg, window, at, n);
  }

  lemma BurstSpacing(cfg: Config, window: int, at: int, n: nat)
    ensures var a, b := BurstHit(cfg, window, at, n), BurstHit(cfg, window, at, n + 1);
            at <= a.at <= b.at && (n >= Threshold(cfg) ==> b.at == a.at + cfg.lockout)
  {
    var m := Threshold(cfg);
    if n >= m { assert (n + 1 - m) * cfg.lockout == (n - m) * cfg.lockout + cfg.lockout; }
  }

  lemma BurstGrows(cfg: Config, window: int, at: int, n: nat, to: nat)
    requires n <= to
    ensures BurstHit(cfg, window, at, n).at <= BurstHit(cfg, window, at, to).at
  {
    var m := Threshold(cfg);
    if n > m { MulMonotone(n - m, to - m, cfg.lockout); }
  }

  /** The last failure a window has room for. */
  lemma LastOfWindow(cfg: Config, window: int)
    requires ValidConfig(cfg)
    ensures BurstHit(cfg, window, window, WindowBound(cfg)).at < window + cfg.window
    ensures cfg.window % cfg.lockout == 0 ==>
              BurstHit(cfg, window, window, WindowBound(cfg)).at + cfg.lockout == window + cfg.window
  {
    var c := CeilDiv(cfg.window, cfg.lockout);
    assert (c - 1) * cfg.lockout == c * cfg.lockout - cfg.lockout;
    if cfg.window % cfg.lockout == 0 { WholeCeil(cfg.window, cfg.lockout); }
  }

  lemma WholeCeil(a: nat, b: nat)
    requires b > 0 && a % b == 0
    ensures CeilDiv(a, b) == a / b && CeilDiv(a, b) * b == a
  {
    assert a == a / b * b;
    SpanWindows(a / b, b, a);
    AtMostQ(CeilDiv(a, b), a / b, b, b - 1);
  }

  lemma {:induction false} CountAll(hits: seq<Hit>, window: int)
    requires forall i :: 0 <= i < |hits| ==> hits[i].window == window
    ensures CountIn(hits, window) == |hits|
  {
    if hits != [] { CountAll(hits[..|hits| - 1], window); }
  }

  /** Some run reaches the bound of a window, so it cannot be lowered. */
  lemma WindowBoundIsReached(cfg: Config) returns (es: seq<Event>)
    requires ValidConfig(cfg)
    ensures Monotone(es) && CountIn(Hits(cfg, map[], es, "ip"), 0) == WindowBound(cfg)
  {
    LastOfWindow(cfg, 0);
    BurstIsPlausible(cfg, 0, 0, 1, WindowBound(cfg));
    es := PlausibleIsRecorded(cfg, Burst(cfg, 0, 0, 1, WindowBound(cfg)));
    CountAll(Burst(cfg, 0, 0, 1, WindowBound(cfg)), 0);
  }

  // ---------------------------------------------------------------- when floor(D / W) + 1 windows bound a span

  /** No span of d seconds in any run records more than floor(d / W) + 1 windows' worth. */
  ghost predicate FloorBoundHolds(cfg: Config, d: nat)
    requires ValidConfig(cfg)
  {
    forall es: seq<Event>, ip: string, i: nat, j: nat ::
      var hits := Hits(cfg, map[], es, ip);
      Monotone(es) && i <= j < |hits| && hits[j].at <= hits[i].at + d
      ==> j - i + 1 <= (d / cfg.window + 1) * WindowBound(cfg)
  }

  /** What the end of one window and the start of another hold together, against what one window holds. */
  predicate EndsFitOneWindow(cfg: Config, d: nat)
    requires ValidConfig(cfg)
  {
    d % cfg.window == 0 || Threshold(cfg) - 1 + d % cfg.window / cfg.lockout <= CeilDiv(cfg.window, cfg.lockout)
  }

  lemma {:induction false} SameWindowCounts(cfg: Config, hits: seq<Hit>, i: nat, l: nat)
    requires ValidConfig(cfg) && Chained(cfg, hits) && i <= l < |hits|
    requires forall k :: i < k <= l ==> hits[k].window == hits[i].window
    ensures hits[l].nth == hits[i].nth + (l - i) && hits[i].at <= hits[l].at
    decreases l - i
  {
    if i < l {
      SameWindowCounts(cfg, hits, i, l - 1);
      HitSpacing(cfg, hits, l - 1);
      assert Linked(cfg, hits[l - 1], hits[l]);
    }
  }

  /** The failure of a window from which on its failures are a lockout apart, seen from failure `i`. */
  function LockedFrom(cfg: Config, hit: Hit): nat {
    if hit.nth <= Threshold(cfg) then Threshold(cfg) else hit.nth
  }

  /** Failures of one window, counted from one of them on: those past the threshold are a lockout apart. */
  lemma {:induction false} SameWindowSpacing(cfg: Config, hits: seq<Hit>, i: nat, l: nat)
    requires ValidConfig(cfg) && Chained(cfg, hits) && i <= l < |hits|
    requires forall k :: i < k <= l ==> hits[k].window == hits[i].window
    ensures var from := LockedFrom(cfg, hits[i]);
            hits[l].nth >= from ==> hits[i].at + (hits[l].nth - from) * cfg.lockout <= hits[l].at
    decreases l - i
  {
    SameWindowCounts(cfg, hits, i, l);
    if i < l {
      SameWindowSpacing(cfg, hits, i, l - 1);
      SameWindowCounts(cfg, hits, i, l - 1);
      assert Linked(cfg, hits[l - 1], hits[l]);
      var from := LockedFrom(cfg, hits[i]);
      if hits[l].nth > from { Distribute(hits[l - 1].nth - from, cfg.lockout); }
    }
  }

  /** The last failure up to `j` that is in the window of failure `i`. */
  lemma {:induction false} LastInWindow(cfg: Config, hits: seq<Hit>, i: nat, j: nat) returns (l: nat)
    requires ValidConfig(cfg) && Chained(cfg, hits) && i <= j < |hits|
    ensures i <= l <= j && (forall k :: i < k <= l ==> hits[k].window == hits[i].window)
    ensures l < j ==> hits[l + 1].nth == 1 && hits[l + 1].window == hits[l + 1].at && Linked(cfg, hits[l], hits[l + 1])
    decreases j - i
  {
    if i == j {
      l := i;
    } else {
      l := LastInWindow(cfg, hits, i, j - 1);
      assert Linked(cfg, hits[l], hits[l + 1]);
      if l == j - 1 && hits[j].window == hits[i].window {
        HitSpacing(cfg, hits, l);
        l := j;
      }
    }
  }

  lemma TogetherAtMost(a: nat, b: nat, n: nat, r: nat)
    requires n > 0 && a * n + b * n <= r
    ensures a + b <= r / n
  {
    assert (a + b) * n == a * n + b * n;
    AtMostFullWindows(a + b, n, r);
  }

  /** Failure `i` and the rest of its window, then q more windows, then the start of the window of failure `j`. */
  lemma EndsOfSpan(cfg: Config, hits: seq<Hit>, i: nat, l: nat, j: nat, q: nat, r: nat)
    requires ShortLimits(cfg) && Chained(cfg, hits) && i <= l < j < |hits| && hits[i].nth >= 2
    requires (forall k :: i < k <= l ==> hits[k].window == hits[i].window)
    requires hits[l + 1].nth == 1 && hits[l + 1].window == hits[l + 1].at
    requires hits[l + 1].window + q * cfg.window <= hits[j].window && hits[j].at <= hits[i].at + q * cfg.window + r
    ensures (l - i + 1) + hits[j].nth <= 2 * Threshold(cfg) - 2 + r / cfg.lockout
  {
    var m := Threshold(cfg);
    SameWindowCounts(cfg, hits, i, l);
    SameWindowSpacing(cfg, hits, i, l);
    HitSpacing(cfg, hits, i);
    HitSpacing(cfg, hits, l);
    HitSpacing(cfg, hits, j);
    assert Linked(cfg, hits[l], hits[l + 1]);
    var from := LockedFrom(cfg, hits[i]);
    var late := if hits[j].nth >= m then hits[j].nth - m else 0;
    var tail := if hits[l].nth >= m then hits[l].nth - from + 1 else 0;
    if tail > 0 { Distribute(tail - 1, cfg.lockout); }
    TogetherAtMost(tail, late, cfg.lockout, r);
  }

  /** k windows between the ends of a span: at most q, and if q the ends together must fit one window. */
  lemma AddUp(k: nat, q: nat, first: nat, last: nat, bound: nat)
    requires first <= bound && last <= bound && k <= q && (k == q ==> first + last <= bound)
    ensures first + k * bound + last <= (q + 1) * bound
  {
    assert (q + 1) * bound == q * bound + bound && (k + 1) * bound == k * bound + bound;
    if k < q { MulMonotone(k + 1, q, bound); }
  }

  /** The window of failure `j` begins at most q windows after the next one of failure `i`. */
  lemma AtMostQ(k: nat, q: nat, w: nat, r: nat)
    requires r < w && k * w <= q * w + r
    ensures k <= q
  {
    assert (q + 1) * w == q * w + w;
    if k > q { MulMonotone(q + 1, k, w); }
  }

  lemma ChainFitsFloor(cfg: Config, hits: seq<Hit>, i: nat, j: nat, q: nat, r: nat)
    requires ShortLimits(cfg) && Chained(cfg, hits) && i <= j < |hits| && hits[i].nth >= 2
    requires hits[j].at <= hits[i].at + q * cfg.window + r && r < cfg.window
    requires Threshold(cfg) - 1 + r / cfg.lockout <= CeilDiv(cfg.window, cfg.lockout)
    ensures j - i + 1 <= (q + 1) * WindowBound(cfg)
  {
    var l := LastInWindow(cfg, hits, i, j);
    SameWindowCounts(cfg, hits, i, l);
    NthBound(cfg, hits, l);
    if l == j {
      AddUp(0, q, l - i + 1, 0, WindowBound(cfg));
    } else {
      NthBound(cfg, hits, j);
      var k := WindowsBetween(cfg, hits, l + 1, j);
      LaterWindowsWithin(cfg, hits, i, l, j, k, q, r);
      if k == q { EndsOfSpan(cfg, hits, i, l, j, q, r); }
      AddUp(k, q, l - i + 1, hits[j].nth, WindowBound(cfg));
    }
  }

  /** When the span leaves the window of failure `i`, at most q windows lie between. */
  lemma LaterWindowsWithin(cfg: Config, hits: seq<Hit>, i: nat, l: nat, j: nat, k: nat, q: nat, r: nat)
    requires ShortLimits(cfg) && Chained(cfg, hits) && i <= l < j < |hits| && hits[i].at <= hits[l].at
    requires hits[l + 1].nth == 1 && hits[l + 1].window == hits[l + 1].at && Linked(cfg, hits[l], hits[l + 1])
    requires hits[l + 1].window + k * cfg.window <= hits[j].window
    requires hits[j].at <= hits[i].at + q * cfg.window + r && r < cfg.window
    ensures k <= q
  {
    HitSpacing(cfg, hits, l);
    HitSpacing(cfg, hits, j);
    AtMostQ(k, q, cfg.window, r);
  }

  lemma SpanSplits(d: nat, w: nat)
    requires w > 0
    ensures d == d / w * w + d % w && d % w < w
  {}

  lemma PartSpanFits(cfg: Config, hits: seq<Hit>, i: nat, j: nat, d: nat)
    requires ShortLimits(cfg) && Chained(cfg, hits) && i <= j < |hits| && hits[j].at <= hits[i].at + d
    requires hits[i].nth >= 2 && d % cfg.window != 0 && EndsFitOneWindow(cfg, d)
    ensures j - i + 1 <= (d / cfg.window + 1) * WindowBound(cfg)
  {
    SpanSplits(d, cfg.window);
    ChainFitsFloor(cfg, hits, i, j, d / cfg.window, d % cfg.window);
  }

  lemma FitsFloor(cfg: Config, es: seq<Event>, ip: string, i: nat, j: nat, d: nat)
    requires ShortLimits(cfg) && Monotone(es) && EndsFitOneWindow(cfg, d)
    requires var hits := Hits(cfg, map[], es, ip);
             i <= j < |hits| && hits[j].at <= hits[i].at + d
    ensures j - i + 1 <= (d / cfg.window + 1) * WindowBound(cfg)
  {
    var hits := Hits(cfg, map[], es, ip);
    RunIsChained(cfg, es, ip);
    NthBound(cfg, hits, i);
    if d % cfg.window == 0 {
      WholeCeil(d, cfg.window);
      FailuresInAnySpan(cfg, es, ip, i, j, d);
    } else if hits[i].nth == 1 {
      FailuresFromWindowStart(cfg, es, ip, i, j, d);
    } else {
      PartSpanFits(cfg, hits, i, j, d);
    }
  }

  predicate Divides(cfg: Config) {
    ValidConfig(cfg) && cfg.ipMax >= 2 && cfg.window % cfg.lockout == 0
  }

  /** A full window is followed by another one right at its end. */
  lemma NextWindowFollows(cfg: Config, w: int)
    requires Divides(cfg)
    ensures Follows(cfg, BurstHit(cfg, w, w, WindowBound(cfg)), BurstHit(cfg, w + cfg.window, w + cfg.window, 1))
  {
    LastOfWindow(cfg, w);
  }

  /** Windows of n failures, all tolerated ones at once, can follow one another without a gap. */
  ghost predicate Fills(cfg: Config, n: nat) {
    forall start: int :: FillsAt(cfg, n, start)
  }

  predicate FillsAt(cfg: Config, n: nat, start: int) {
    && Plausible(cfg, Burst(cfg, start, start, 1, n))
    && Follows(cfg, BurstHit(cfg, start, start, n), Hit(start + cfg.window, start + cfg.window, 1))
  }

  lemma WindowBoundFills(cfg: Config)
    requires Divides(cfg)
    ensures Fills(cfg, WindowBound(cfg)) && WindowBound(cfg) >= 1
  {
    forall start: int ensures FillsAt(cfg, WindowBound(cfg), start) {
      LastOfWindow(cfg, start);
      BurstIsPlausible(cfg, start, start, 1, WindowBound(cfg));
      NextWindowFollows(cfg, start);
    }
  }

  /** How long before the end of the first window the failures of that window resume. */
  function Lead(cfg: Config, k: nat): nat {
    if k == 0 then 1 else k * cfg.lockout
  }

  /** A first window: one failure, then the rest as late as the lead allows. */
  function FirstWindow(cfg: Config, k: nat): seq<Hit>
    requires ValidConfig(cfg)
  {
    [Hit(0, 0, 1)] + Burst(cfg, 0, cfg.window - Lead(cfg, k), 2, Threshold(cfg) - 1 + k)
  }

  /** q windows of n failures and the tolerated failures of another. */
  function LaterWindows(cfg: Config, start: int, q: nat, n: nat): seq<Hit>
    decreases q
  {
    if q == 0 then Burst(cfg, start, start, 1, Threshold(cfg))
    else Burst(cfg, start, start, 1, n) + LaterWindows(cfg, start + cfg.window, q - 1, n)
  }

  /** The lock of the first window ends with it. */
  lemma FirstWindowPlausible(cfg: Config, k: nat)
    requires Divides(cfg) && Lead(cfg, k) < cfg.window && Threshold(cfg) - 2 + k > 0
    ensures var hits := FirstWindow(cfg, k);
            && Plausible(cfg, hits) && StartsWindow(hits) && |hits| == Threshold(cfg) - 1 + k
            && hits[1].at == cfg.window - Lead(cfg, k)
            && Follows(cfg, hits[|hits| - 1], Hit(cfg.window, cfg.window, 1))
  {
    var m, s := Threshold(cfg), cfg.window - Lead(cfg, k);
    assert k > 0 ==> k * cfg.lockout == (k - 1) * cfg.lockout + cfg.lockout;
    assert BurstHit(cfg, 0, s, m - 1 + k).at == if k == 0 then s else s + (k - 1) * cfg.lockout;
    BurstIsPlausible(cfg, 0, s, 2, m - 1 + k);
    assert BurstHit(cfg, 0, s, 2) == Hit(s, 0, 2);
    PlausibleConcat(cfg, [Hit(0, 0, 1)], Burst(cfg, 0, s, 2, m - 1 + k));
  }

  /** One more window of n failures in front. */
  lemma WindowBefore(cfg: Config, start: int, n: nat, rest: seq<Hit>)
    requires n >= 1 && Fills(cfg, n)
    requires Plausible(cfg, rest) && StartsWindow(rest) && rest[0].at == start + cfg.window
    ensures var hits := Burst(cfg, start, start, 1, n) + rest;
            Plausible(cfg, hits) && StartsWindow(hits) && hits[0].at == start
  {
    var full := Burst(cfg, start, start, 1, n);
    assert FillsAt(cfg, n, start);
    assert full[0] == BurstHit(cfg, start, start, 1) && full[n - 1] == BurstHit(cfg, start, start, n);
    PlausibleConcat(cfg, full, rest);
  }

  lemma ToleratedPlausible(cfg: Config, start: int)
    requires ValidConfig(cfg)
    ensures var hits := Burst(cfg, start, start, 1, Threshold(cfg));
            Plausible(cfg, hits) && StartsWindow(hits) && hits[0].at == start
  {
    BurstIsPlausible(cfg, start, start, 1, Threshold(cfg));
    assert Burst(cfg, start, start, 1, Threshold(cfg))[0] == BurstHit(cfg, start, start, 1);
  }

  lemma {:induction false} LaterWindowsPlausible(cfg: Config, start: int, q: nat, n: nat)
    requires ValidConfig(cfg) && n >= 1 && Fills(cfg, n)
    ensures var hits := LaterWindows(cfg, start, q, n);
            Plausible(cfg, hits) && StartsWindow(hits) && hits[0].at == start
    decreases q
  {
    if q == 0 {
      ToleratedPlausible(cfg, start);
    } else {
      var next := start + cfg.window;
      var rest := LaterWindows(cfg, next, q - 1, n);
      LaterWindowsPlausible(cfg, next, q - 1, n);
      WindowBefore(cfg, start, n, rest);
      assert LaterWindows(cfg, start, q, n) == Burst(cfg, start, start, 1, n) + rest;
    }
  }

  lemma {:induction false} LaterWindowsEnd(cfg: Config, start: int, q: nat, n: nat)
    requires n >= 1
    ensures var hits := LaterWindows(cfg, start, q, n);
            |hits| == q * n + Threshold(cfg) && hits[|hits| - 1].at == start + q * cfg.window
    decreases q
  {
    if q > 0 {
      LaterWindowsEnd(cfg, start + cfg.window, q - 1, n);
      Distribute(q - 1, n);
      Distribute(q - 1, cfg.window);
    }
  }

  lemma JoinedEnds(a: seq<Hit>, b: seq<Hit>)
    requires |a| >= 2 && |b| > 0
    ensures |a + b| == |a| + |b|
    ensures (a + b)[0] == a[0] && (a + b)[1] == a[1] && (a + b)[|a + b| - 1] == b[|b| - 1]
  {}

  /** A first window that is idle until its end, q full windows, and the start of another. */
  lemma StraddlingPlausible(cfg: Config, k: nat, q: nat, n: nat) returns (hits: seq<Hit>)
    requires Divides(cfg) && Lead(cfg, k) < cfg.window && Threshold(cfg) - 2 + k > 0 && n >= 1 && Fills(cfg, n)
    ensures Plausible(cfg, hits) && StartsWindow(hits) && |hits| - 1 == Threshold(cfg) - 2 + k + q * n + Threshold(cfg)
    ensures hits[1].at == cfg.window - Lead(cfg, k) && hits[|hits| - 1].at == cfg.window + q * cfg.window
  {
    FirstWindowPlausible(cfg, k);
    LaterWindowsPlausible(cfg, cfg.window, q, n);
    LaterWindowsEnd(cfg, cfg.window, q, n);
    PlausibleConcat(cfg, FirstWindow(cfg, k), LaterWindows(cfg, cfg.window, q, n));
    JoinedEnds(FirstWindow(cfg, k), LaterWindows(cfg, cfg.window, q, n));
    hits := FirstWindow(cfg, k) + LaterWindows(cfg, cfg.window, q, n);
  }

  lemma ExceedsFloor(cfg: Config, es: seq<Event>, ip: string, i: nat, j: nat, d: nat)
    requires ValidConfig(cfg) && Monotone(es)
    requires var hits := Hits(cfg, map[], es, ip);
             i <= j < |hits| && hits[j].at <= hits[i].at + d
    requires j - i + 1 > (d / cfg.window + 1) * WindowBound(cfg)
    ensures !FloorBoundHolds(cfg, d)
  {}

  lemma StraddlingRun(cfg: Config, q: nat, r: nat, k: nat) returns (es: seq<Event>, hits: seq<Hit>)
    requires Divides(cfg) && 0 < r < cfg.window && k * cfg.lockout <= r
    requires Threshold(cfg) - 1 + k > CeilDiv(cfg.window, cfg.lockout)
    ensures Monotone(es) && Hits(cfg, map[], es, "ip") == hits
    ensures |hits| - 1 > (q + 1) * WindowBound(cfg) && hits[|hits| - 1].at <= hits[1].at + q * cfg.window + r
  {
    DividesIsShort(cfg);
    WindowBoundFills(cfg);
    hits := StraddlingPlausible(cfg, k, q, WindowBound(cfg));
    es := PlausibleIsRecorded(cfg, hits);
    Distribute(q, WindowBound(cfg));
  }

  /** When the ends of a span do not fit one window, some run records more than the floor bound. */
  lemma StraddlingExceeds(cfg: Config, q: nat, r: nat, k: nat, d: nat)
    requires Divides(cfg) && q == d / cfg.window && r == d % cfg.window && k == r / cfg.lockout
    requires r > 0 && Threshold(cfg) - 1 + k > CeilDiv(cfg.window, cfg.lockout)
    ensures !FloorBoundHolds(cfg, d)
  {
    assert d == q * cfg.window + r && k * cfg.lockout <= r;
    var es, hits := StraddlingRun(cfg, q, r, k);
    ExceedsFloor(cfg, es, "ip", 1, |hits| - 1, d);
  }

  lemma Distribute(q: nat, n: nat)
    ensures (q + 1) * n == q * n + n
  {}

  lemma DividesIsShort(cfg: Config)
    requires Divides(cfg)
    ensures cfg.lockout <= cfg.window && CeilDiv(cfg.window, cfg.lockout) >= 1
  {}

  /**
   For a lockout that divides the window, the exact condition under which a span of d seconds never holds
   more than floor(d / W) + 1 windows' worth.
   */
  lemma FloorBoundIff(cfg: Config, d: nat)
    requires Divides(cfg) && cfg.window <= RETENTION
    ensures FloorBoundHolds(cfg, d) <==> EndsFitOneWindow(cfg, d)
  {
    if EndsFitOneWindow(cfg, d) {
      DividesIsShort(cfg);
      EndsFitSuffices(cfg, d);
    } else {
      var r := d % cfg.window;
      StraddlingExceeds(cfg, d / cfg.window, r, r / cfg.lockout, d);
    }
  }

  /** For every configuration the condition is enough. */
  lemma EndsFitSuffices(cfg: Config, d: nat)
    requires ShortLimits(cfg) && EndsFitOneWindow(cfg, d)
    ensures FloorBoundHolds(cfg, d)
  {
    forall es: seq<Event>, ip: string, i: nat, j: nat |
      Monotone(es) && i <= j < |Hits(cfg, map[], es, ip)|
      && Hits(cfg, map[], es, ip)[j].at <= Hits(cfg, map[], es, ip)[i].at + d
      ensures j - i + 1 <= (d / cfg.window + 1) * WindowBound(cfg)
    {
      FitsFloor(cfg, es, ip, i, j, d);
    }
  }

  /**
   Over all configurations with a given window the bound holds exactly for spans of whole windows, and for a window
   that outlasts the retention only at a single instant. (For a window one second longer than the retention the
   answer depends on the resolution of the clock.)
   */
  lemma FloorBoundIffWholeWindows(w: nat, d: nat)
    requires w > 0
    ensures w <= RETENTION ==> (FloorBoundForWindow(w, d) <==> d % w == 0)
    ensures w > RETENTION + 1 ==> (FloorBoundForWindow(w, d) <==> d == 0)
  {
    if d % w == 0 && (w <= RETENTION || d == 0) {
      forall cfg: Config | ValidConfig(cfg) && cfg.window == w ensures FloorBoundHolds(cfg, d) {
        WholeWindowsSuffice(cfg, d);
      }
    } else if d % w != 0 {
      PartWindowExceeds(w, d);
    } else if w > RETENTION + 1 {
      LongWindowExceeds(w, d);
    }
  }

  lemma PartWindowExceeds(w: nat, d: nat)
    requires w > 0 && d % w != 0
    ensures !FloorBoundForWindow(w, d)
  {
    var cfg := Config(w, 1, 1, w + 1, 1);
    assert ValidConfig(cfg) && CeilDiv(w, 1) == w && d % w / 1 == d % w;
    StraddlingExceeds(cfg, d / w, d % w, d % w, d);
  }

  lemma LongWindowExceeds(w: nat, d: nat)
    requires w > RETENTION + 1 && d > 0 && d % w == 0
    ensures !FloorBoundForWindow(w, d)
  {
    assert d == d / w * w;
    CutShortExceeds(Config(w, 1, 1, 2 * w, 1), d / w - 1, d);
  }

  ghost predicate FloorBoundForWindow(w: nat, d: nat) {
    forall cfg: Config :: ValidConfig(cfg) && cfg.window == w ==> FloorBoundHolds(cfg, d)
  }

  lemma MonotoneJoin(a: seq<Event>, now: int, b: seq<Event>)
    requires Monotone(a) && Monotone(b) && (a != [] ==> a[|a| - 1].at <= now) && (b != [] ==> now <= b[0].at)
    ensures Monotone(a + ([Prune(now)] + b))
  {
    assert forall i :: 0 <= i < |a| ==> a[i].at <= now;
    assert forall i :: 0 <= i < |b| ==> now <= b[i].at;
  }

  /** Once the address has been quiet for the retention, pruning takes its row. */
  lemma PrunedAfter(cfg: Config, hits: seq<Hit>, now: int)
    requires Plausible(cfg, hits) && StartsWindow(hits) && hits[|hits| - 1].at + RETENTION < now
    ensures var t := Pruned(Final(cfg, map[], Guesses(0, TimesOf(hits))), now);
            FreshFrom(t, |hits|) && IpKey("ip") !in t
  {
    PlausibleFrom(cfg, map[], 0, hits);
    GuessesEnd(cfg, map[], 0, None, TimesOf(hits));
  }

  lemma HitsAfterPrune(cfg: Config, t: Table, now: int, es: seq<Event>, ip: string)
    ensures Hits(cfg, t, [Prune(now)] + es, ip) == Hits(cfg, Pruned(t, now), es, ip)
  {
    assert ([Prune(now)] + es)[1..] == es;
  }

  /** Pruning between two plausible sequences lets the second start a window of its own. */
  lemma PrunedBetween(cfg: Config, first: seq<Hit>, rest: seq<Hit>) returns (es: seq<Event>)
    requires Plausible(cfg, first) && Plausible(cfg, rest) && StartsWindow(first) && StartsWindow(rest)
    requires first[|first| - 1].at + RETENTION < rest[0].at
    ensures Monotone(es) && Hits(cfg, map[], es, "ip") == first + rest
  {
    var a, b, now := Guesses(0, TimesOf(first)), Guesses(|first|, TimesOf(rest)), rest[0].at;
    es := a + ([Prune(now)] + b);
    GuessesMonotone(cfg, 0, first);
    GuessesMonotone(cfg, |first|, rest);
    MonotoneJoin(a, now, b);
    PlausibleFrom(cfg, map[], 0, first);
    PrunedAfter(cfg, first, now);
    HitsAppend(cfg, map[], a, [Prune(now)] + b, "ip");
    HitsAfterPrune(cfg, Final(cfg, map[], a), now, b, "ip");
    PlausibleFrom(cfg, Pruned(Final(cfg, map[], a), now), |first|, rest);
  }

  /** A window whose failures resume after the retention, and the tolerated failures of the next one. */
  function LongFirst(cfg: Config): seq<Hit> {
    [Hit(0, 0, 1)] + Burst(cfg, 0, RETENTION + 1, 2, Threshold(cfg))
    + Burst(cfg, cfg.window, cfg.window, 1, Threshold(cfg))
  }

  lemma LongFirstPlausible(cfg: Config)
    requires ValidConfig(cfg) && cfg.ipMax >= 2 && cfg.lockout == 1 && cfg.window > RETENTION + 1
    ensures var hits := LongFirst(cfg);
            && Plausible(cfg, hits) && StartsWindow(hits) && |hits| == 2 * Threshold(cfg)
            && hits[1].at == RETENTION + 1 && hits[|hits| - 1].at == cfg.window
  {
    var m, w := Threshold(cfg), cfg.window;
    var late, next := Burst(cfg, 0, RETENTION + 1, 2, m), Burst(cfg, w, w, 1, m);
    BurstIsPlausible(cfg, 0, RETENTION + 1, 2, m);
    BurstIsPlausible(cfg, w, w, 1, m);
    PlausibleConcat(cfg, [Hit(0, 0, 1)], late);
    PlausibleConcat(cfg, [Hit(0, 0, 1)] + late, next);
  }

  lemma CutShortRun(cfg: Config, q: nat, n: nat) returns (es: seq<Event>, hits: seq<Hit>)
    requires Divides(cfg) && cfg.window > RETENTION + 1 && cfg.lockout == 1 && n >= 1 && Fills(cfg, n)
    ensures Monotone(es) && Hits(cfg, map[], es, "ip") == hits && |hits| - 1 == 3 * Threshold(cfg) - 1 + q * n
    ensures hits[1].at == RETENTION + 1 && hits[|hits| - 1].at == cfg.window + RETENTION + 1 + q * cfg.window
  {
    var start := cfg.window + RETENTION + 1;
    LongFirstPlausible(cfg);
    LaterWindowsPlausible(cfg, start, q, n);
    LaterWindowsEnd(cfg, start, q, n);
    JoinedEnds(LongFirst(cfg), LaterWindows(cfg, start, q, n));
    hits := LongFirst(cfg) + LaterWindows(cfg, start, q, n);
    es := PrunedBetween(cfg, LongFirst(cfg), LaterWindows(cfg, start, q, n));
  }

  /** A window longer than the retention can be cut short by pruning, and a span then meets one window more. */
  lemma CutShortExceeds(cfg: Config, q: nat, d: nat)
    requires ValidConfig(cfg) && cfg.window > RETENTION + 1 && cfg.lockout == 1 && cfg.ipMax == 2 * cfg.window
    requires d / cfg.window == q + 1 && d % cfg.window == 0
    ensures !FloorBoundHolds(cfg, d)
  {
    WindowBoundFills(cfg);
    var es, hits := CutShortRun(cfg, q, WindowBound(cfg));
    assert d == (q + 1) * cfg.window;
    Distribute(q, cfg.window);
    OneWindowMore(cfg, q);
    ExceedsFloor(cfg, es, "ip", 1, |hits| - 1, d);
  }

  lemma OneWindowMore(cfg: Config, q: nat)
    requires ValidConfig(cfg) && cfg.lockout == 1 && cfg.ipMax == 2 * cfg.window
    ensures 3 * Threshold(cfg) - 1 + q * WindowBound(cfg) > (q + 2) * WindowBound(cfg)
  {
    Distribute(q, WindowBound(cfg));
    Distribute(q + 1, WindowBound(cfg));
  }

  lemma WholeWindowsSuffice(cfg: Config, d: nat)
    requires ValidConfig(cfg) && d % cfg.window == 0 && (cfg.window <= RETENTION || d == 0)
    ensures FloorBoundHolds(cfg, d)
  {
    WholeCeil(d, cfg.window);
    forall es: seq<Event>, ip: string, i: nat, j: nat |
      Monotone(es) && i <= j < |Hits(cfg, map[], es, ip)|
      && Hits(cfg, map[], es, ip)[j].at <= Hits(cfg, map[], es, ip)[i].at + d
      ensures j - i + 1 <= (d / cfg.window + 1) * WindowBound(cfg)
    {
      FailuresInAnySpan(cfg, es, ip, i, j, d);
    }
  }

  // ---------------------------------------------------------------- pruning

  function WithoutPruning(es: seq<Event>): seq<Event> {
    if es == [] then [] else (if es[0].Prune? then [] else [es[0]]) + WithoutPruning(es[1..])
  }

  predicate RowBounds(cfg: Config, row: Row, now: int) {
    row.windowStart <= row.updatedAt <= now
    && (row.lockedUntil.Some? ==> row.lockedUntil.value <= row.updatedAt + cfg.lockout)
  }

  ghost predicate Bounded(cfg: Config, t: Table, now: int) {
    forall k :: k in t ==> RowBounds(cfg, t[k], now)
  }

  /** The pruned table lacks only rows that have outlived both their window and their lock. */
  ghost predicate PrunedOf(cfg: Config, pruned: Table, full: Table, now: int) {
    && Bounded(cfg, full, now)
    && (forall k :: k in pruned ==> k in full && pruned[k] == full[k])
    && (forall k :: k in full && k !in pruned ==> full[k].updatedAt < now - RETENTION)
  }

  predicate ToleratesOne(cfg: Config) {
    cfg.accountMax >= 2 && cfg.ipMax >= 2 && cfg.accountIpMax >= 2
  }

  lemma SameLocks(cfg: Config, a: Table, b: Table, past: int, now: int, ks: seq<Key>)
    requires ShortLimits(cfg) && PrunedOf(cfg, a, b, past) && past <= now
    ensures LatestLock(a, ks, now) == LatestLock(b, ks, now)
  {}

  /** Upserting onto a stale row gives the row a plain insert gives, provided one failure does not lock. */
  lemma {:induction false} SameRecord(cfg: Config, a: Table, b: Table, past: int, now: int, ks: seq<Key>)
    requires ShortLimits(cfg) && ToleratesOne(cfg) && PrunedOf(cfg, a, b, past) && past <= now
    ensures var (a', la), (b', lb) := RecordAll(cfg, a, ks, now), RecordAll(cfg, b, ks, now);
            la == lb && PrunedOf(cfg, a', b', now)
  {
    if ks != [] {
      SameRecord(cfg, a, b, past, now, ks[..|ks| - 1]);
    }
  }

  lemma {:induction false} PrunedRunAgrees(cfg: Config, a: Table, b: Table, es: seq<Event>, past: int)
    requires ShortLimits(cfg) && ToleratesOne(cfg) && PrunedOf(cfg, a, b, past)
    requires Monotone(es) && (es != [] ==> past <= es[0].at)
    ensures Outcomes(cfg, a, es) == Outcomes(cfg, b, WithoutPruning(es))
    decreases |es|
  {
    if es != [] {
      var e := es[0];
      var a' := Step(cfg, a, e).0;
      var b' := if e.Prune? then b else Step(cfg, b, e).0;
      if e.Attempt? {
        SameLocks(cfg, a, b, past, e.at, Keys(e.user, e.ip));
        SameRecord(cfg, a, b, past, e.at, Keys(e.user, e.ip));
      }
      assert PrunedOf(cfg, a', b', e.at);
      PrunedRunAgrees(cfg, a', b', es[1..], e.at);
      if !e.Prune? {
        assert WithoutPruning(es) == [e] + WithoutPruning(es[1..]);
        assert WithoutPruning(es)[1..] == WithoutPruning(es[1..]);
      } else {
        assert WithoutPruning(es) == WithoutPruning(es[1..]);
      }
    }
  }

  /** No run from the empty table shows whether old rows are pruned. */
  ghost predicate PruningInvisible(cfg: Config) {
    forall es: seq<Event> :: Monotone(es) ==> Outcomes(cfg, map[], es) == Outcomes(cfg, map[], WithoutPruning(es))
  }

  /** With a limit of one, a failure long after the first locks the key or not depending on pruning. */
  lemma LateFailureDiffers(cfg: Config, bad0: Event, bad1: Event)
    requires ShortLimits(cfg) && !ToleratesOne(cfg)
    requires bad0 == Attempt(0, "u", "ip", false) && bad1 == Attempt(RETENTION + 1, "u", "ip", false)
    ensures var t1 := Step(cfg, map[], bad0).0;
            Pruned(t1, RETENTION + 1) == map[] && Step(cfg, map[], bad1).1 != Step(cfg, t1, bad1).1
  {
    var t1 := Step(cfg, map[], bad0).0;
    ThreeKeys(cfg, map[], "u", "ip", 0);
    assert Pruned(t1, RETENTION + 1) == map[];
    ThreeKeys(cfg, map[], "u", "ip", RETENTION + 1);
    ThreeKeys(cfg, t1, "u", "ip", RETENTION + 1);
  }

  lemma OutcomesOfThree(cfg: Config, a: Event, prune: Event, b: Event)
    requires !a.Prune? && prune.Prune? && !b.Prune?
    ensures var (t1, o) := Step(cfg, map[], a);
            && Outcomes(cfg, map[], [a, prune, b]) == [o, Step(cfg, Pruned(t1, prune.at), b).1]
            && Outcomes(cfg, map[], WithoutPruning([a, prune, b])) == [o, Step(cfg, t1, b).1]
  {
    var t1 := Step(cfg, map[], a).0;
    OneOutcome(cfg, t1, b);
    OneOutcome(cfg, Pruned(t1, prune.at), b);
    assert [a, prune, b][1..] == [prune, b] && [prune, b][1..] == [b] && [b][1..] == [] && [a, b][1..] == [b];
    assert WithoutPruning([b]) == [b];
    assert WithoutPruning([prune, b]) == [b];
    assert WithoutPruning([a, prune, b]) == [a, b];
  }

  lemma PruningShowsForOne(cfg: Config)
    requires ShortLimits(cfg) && !ToleratesOne(cfg)
    ensures !PruningInvisible(cfg)
  {
    var bad0, prune, bad1 := Attempt(0, "u", "ip", false), Prune(RETENTION + 1),
        Attempt(RETENTION + 1, "u", "ip", false);
    LateFailureDiffers(cfg, bad0, bad1);
    OutcomesOfThree(cfg, bad0, prune, bad1);
    assert Monotone([bad0, prune, bad1]);
    assert Outcomes(cfg, map[], [bad0, prune, bad1])[1] != Outcomes(cfg, map[], WithoutPruning([bad0, prune, bad1]))[1];
  }

  lemma OneOutcome(cfg: Config, t: Table, e: Event)
    requires !e.Prune?
    ensures Outcomes(cfg, t, [e]) == [Step(cfg, t, e).1]
  {}

  /** Pruning is invisible exactly when no limit is one. */
  lemma PruningInvisibleIff(cfg: Config)
    requires ShortLimits(cfg)
    ensures PruningInvisible(cfg) <==> ToleratesOne(cfg)
  {
    if ToleratesOne(cfg) {
      forall es: seq<Event> | Monotone(es)
        ensures Outcomes(cfg, map[], es) == Outcomes(cfg, map[], WithoutPruning(es))
      {
        PrunedRunAgrees(cfg, map[], map[], es, if es == [] then 0 else es[0].at);
      }
    } else {
      PruningShowsForOne(cfg);
    }
  }
}
