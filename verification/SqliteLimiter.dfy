/**
 The SQLite rate limiter: a log of admissions that is pruned on every request, and penalties kept in the cache table.
 */
module SqliteLimiter {
  import opened Outcomes
  import opened Timeline
  import opened RateKeys
  import opened Runs

  /** One row of table rate_limits. */
  datatype RateRow = RateRow(key: LimitsKey, timestamp: Time)

  /** The stored JSON values, as far as adding 1 to them can tell them apart. */
  datatype Json = Number(n: int) | Boolean(b: bool) | NonNumeric

  /** One row of table cache; a row without expiry never expires. */
  datatype CacheRow = CacheRow(value: Json, expiresAt: Option<Time>)

  /** The settings the middleware resolves once at startup. */
  datatype Policy = Policy(window: int, burst: int, penaltyCooldown: int, penaltyThreshold: int)

  datatype Answer = Answer(violated: bool, count: int)

  datatype Tables = Tables(rates: seq<RateRow>, cache: map<CacheKey, CacheRow>)

  // ---------------------------------------------------------------------------
  // The SQL statements
  // ---------------------------------------------------------------------------

  /** DELETE FROM rate_limits WHERE key = k AND timestamp < cutoff */
  function DeleteOlder(rows: seq<RateRow>, k: LimitsKey, cutoff: Time): seq<RateRow> {
    if rows == [] then []
    else
      var kept, last := DeleteOlder(rows[..|rows| - 1], k, cutoff), rows[|rows| - 1];
      if last.key == k && last.timestamp < cutoff then kept else kept + [last]
  }

  /** The timestamps stored under k, oldest insertion first. */
  function TimesOf(rows: seq<RateRow>, k: LimitsKey): seq<Time> {
    if rows == [] then []
    else
      var times, last := TimesOf(rows[..|rows| - 1], k), rows[|rows| - 1];
      if last.key == k then times + [last.timestamp] else times
  }

  /** SELECT COUNT(*) FROM rate_limits WHERE key = k */
  function CountRows(rows: seq<RateRow>, k: LimitsKey): nat {
    |TimesOf(rows, k)|
  }

  /** DELETE FROM cache WHERE expires_at IS NOT NULL AND expires_at < now */
  function DropExpired(cache: map<CacheKey, CacheRow>, now: Time): map<CacheKey, CacheRow> {
    map k | k in cache && !(cache[k].expiresAt.Some? && cache[k].expiresAt.value < now) :: cache[k]
  }

  predicate Locked(cache: map<CacheKey, CacheRow>, ip: string, now: Time) {
    var k := Penalty(ip);
    k in cache && (cache[k].expiresAt == None || now < cache[k].expiresAt.value)
  }

  /** The violation count to store next: one more than the stored number, or 1 where that cannot be computed. */
  function NextViolation(cache: map<CacheKey, CacheRow>, k: CacheKey): int {
    if k !in cache then 1
    else match cache[k].value
      case Number(n) => n + 1
      case Boolean(b) => if b then 2 else 1
      case NonNumeric => 1
  }

  function Punish(cache: map<CacheKey, CacheRow>, key: LimitsKey, now: Time, p: Policy): map<CacheKey, CacheRow> {
    var vKey := Violations(key);
    var n := NextViolation(cache, vKey);
    var counted := cache[vKey := CacheRow(Number(n), Some(now + (2 * p.window) as real))];
    if n >= p.penaltyThreshold
    then counted[Penalty(key.ip) := CacheRow(Boolean(true), Some(now + p.penaltyCooldown as real))]
    else counted
  }

  /** One request as a step on the two tables. */
  function Check(t: Tables, key: LimitsKey, limit: int, now: Time, p: Policy): (Tables, Answer) {
    if Locked(t.cache, key.ip, now) then (t, Answer(true, limit + 1))
    else
      var kept := DeleteOlder(t.rates, key, now - p.window as real);
      var count := CountRows(kept, key);
      if count >= limit + p.burst then (Tables(kept, Punish(t.cache, key, now, p)), Answer(true, count))
      else (Tables(kept + [RateRow(key, now)], t.cache), Answer(false, count + 1))
  }

  // ---------------------------------------------------------------------------
  // The adapter
  // ---------------------------------------------------------------------------

  class SQLiteCache {
    var rateLimits: seq<RateRow>
    var cache: map<CacheKey, CacheRow>

    constructor ()
      ensures rateLimits == [] && cache == map[]
    {
      rateLimits, cache := [], map[];
    }

    ghost function Contents(): Tables
      reads this
    {
      Tables(rateLimits, cache)
    }

    method IsIpPenalized(ip: string, now: Time) returns (penalized: bool)
      ensures penalized == Locked(cache, ip, now)
    {
      var penaltyKey := Penalty(ip);
      if penaltyKey in cache {
        var expiresAt := cache[penaltyKey].expiresAt;
        if expiresAt == None || now < expiresAt.value {
          return true;
        }
      }
      return false;
    }

    method EnforceRatePenalty(key: LimitsKey, now: Time, p: Policy)
      modifies this`cache
      ensures cache == Punish(old(cache), key, now, p)
    {
      var violationKey := Violations(key);
      var count := 1;
      if violationKey in cache {
        match cache[violationKey].value {
          case Number(n) => count := n + 1;
          case Boolean(b) => count := if b then 2 else 1;
          case NonNumeric =>
        }
      }
      cache := cache[violationKey := CacheRow(Number(count), Some(now + (2 * p.window) as real))];
      if count >= p.penaltyThreshold {
        var penaltyKey := Penalty(key.ip);
        cache := cache[penaltyKey := CacheRow(Boolean(true), Some(now + p.penaltyCooldown as real))];
      }
    }

    method CheckRateLimit(key: LimitsKey, limit: int, now: Time, p: Policy) returns (violated: bool, count: int)
      modifies this
      ensures (Contents(), Answer(violated, count)) == Check(old(Contents()), key, limit, now, p)
    {
      var windowStart := now - p.window as real;
      var penalized := IsIpPenalized(key.ip, now);
      if penalized {
        return true, limit + 1;
      }
      rateLimits := DeleteOlder(rateLimits, key, windowStart);
      count := CountRows(rateLimits, key);
      if count >= limit + p.burst {
        EnforceRatePenalty(key, now, p);
        return true, count;
      }
      rateLimits := rateLimits + [RateRow(key, now)];
      return false, count + 1;
    }

    /** The general purpose setter: it also clears expired rows, whoever wrote them. */
    method Set(name: string, value: Json, ttl: Time, now: Time)
      modifies this`cache
      ensures cache == DropExpired(old(cache)[General(name) := CacheRow(value, Some(now + ttl))], now)
    {
      cache := cache[General(name) := CacheRow(value, Some(now + ttl))];
      cache := DropExpired(cache, now);
    }

    method Delete(name: string) returns (existed: bool)
      modifies this`cache
      ensures existed == (General(name) in old(cache)) && cache == old(cache) - {General(name)}
    {
      existed := General(name) in cache;
      cache := cache - {General(name)};
    }
  }

  // ---------------------------------------------------------------------------
  // Runs
  // ---------------------------------------------------------------------------

  datatype Event =
    | Request(key: LimitsKey, limit: int, now: Time)
    | CacheSet(name: string, value: Json, ttl: Time, now: Time)
    | CacheDelete(name: string, now: Time)

  /** The clock never goes back during the run and reads no more than now after it. */
  ghost predicate Clocked(run: Run<Event>, now: Time) {
    match run
    case Start => true
    case Then(before, e) => e.now <= now && Clocked(before, e.now)
  }

  function Step(t: Tables, e: Event, p: Policy): Tables {
    match e
    case Request(key, limit, now) => Check(t, key, limit, now, p).0
    case CacheSet(name, value, ttl, now) =>
      t.(cache := DropExpired(t.cache[General(name) := CacheRow(value, Some(now + ttl))], now))
    case CacheDelete(name, _) => t.(cache := t.cache - {General(name)})
  }

  /** The tables after a run that started from t. */
  function After(t: Tables, run: Run<Event>, p: Policy): Tables {
    match run
    case Start => t
    case Then(before, e) => Step(After(t, before, p), e, p)
  }

  predicate Admits(t: Tables, e: Event, p: Policy) {
    e.Request? && !Check(t, e.key, e.limit, e.now, p).1.violated
  }

  /** Every admission of the run under key k, none forgotten: what the limiter only keeps the recent part of. */
  function Admitted(t: Tables, run: Run<Event>, p: Policy, k: LimitsKey): seq<Time> {
    match run
    case Start => []
    case Then(before, e) =>
      var log := Admitted(t, before, p, k);
      if Admits(After(t, before, p), e, p) && e.key == k then log + [e.now] else log
  }

  // ---------------------------------------------------------------------------
  // Pruning
  // ---------------------------------------------------------------------------

  lemma TimesOfAppend(rows: seq<RateRow>, r: RateRow, k: LimitsKey)
    ensures TimesOf(rows + [r], k) == if r.key == k then TimesOf(rows, k) + [r.timestamp] else TimesOf(rows, k)
  {
    assert (rows + [r])[..|rows|] == rows;
  }

  /** Pruning one key leaves the rows of every other key alone. */
  lemma {:induction false} DeleteOlderElsewhere(rows: seq<RateRow>, k: LimitsKey, cutoff: Time, other: LimitsKey)
    requires other != k
    ensures TimesOf(DeleteOlder(rows, k, cutoff), other) == TimesOf(rows, other)
  {
    if rows != [] {
      var init, last := rows[..|rows| - 1], rows[|rows| - 1];
      DeleteOlderElsewhere(init, k, cutoff, other);
      if !(last.key == k && last.timestamp < cutoff) {
        TimesOfAppend(DeleteOlder(init, k, cutoff), last, other);
      }
    }
  }

  /** What pruning keeps of its key is what happened since the cutoff, and no later count notices it. */
  lemma {:induction false} DeleteOlderKeeps(rows: seq<RateRow>, k: LimitsKey, cutoff: Time, c: Time)
    requires cutoff <= c
    ensures Since(TimesOf(DeleteOlder(rows, k, cutoff), k), c) == Since(TimesOf(rows, k), c)
    ensures CountRows(DeleteOlder(rows, k, cutoff), k) == Since(TimesOf(rows, k), cutoff)
  {
    if rows != [] {
      var init, last := rows[..|rows| - 1], rows[|rows| - 1];
      DeleteOlderKeeps(init, k, cutoff, c);
      var pruned := DeleteOlder(init, k, cutoff);
      if last.key == k {
        SinceAppend(TimesOf(init, k), last.timestamp, c);
        SinceAppend(TimesOf(init, k), last.timestamp, cutoff);
      }
      if !(last.key == k && last.timestamp < cutoff) {
        TimesOfAppend(pruned, last, k);
        if last.key == k {
          SinceAppend(TimesOf(pruned, k), last.timestamp, c);
        }
      }
    }
  }

  // ---------------------------------------------------------------------------
  // The pruned log against the whole history
  // ---------------------------------------------------------------------------

  lemma PruningUnnoticed(rows: seq<RateRow>, key: LimitsKey, cutoff: Time, k: LimitsKey, c: Time)
    requires cutoff <= c
    ensures Since(TimesOf(DeleteOlder(rows, key, cutoff), k), c) == Since(TimesOf(rows, k), c)
  {
    if k == key {
      DeleteOlderKeeps(rows, k, cutoff, c);
    } else {
      DeleteOlderElsewhere(rows, key, cutoff, k);
    }
  }

  lemma InsertionCounts(rows: seq<RateRow>, r: RateRow, k: LimitsKey, c: Time)
    ensures Since(TimesOf(rows + [r], k), c)
         == Since(TimesOf(rows, k), c) + (if k == r.key && c <= r.timestamp then 1 else 0)
  {
    TimesOfAppend(rows, r, k);
    SinceAppend(TimesOf(rows, k), r.timestamp, c);
  }

  /** One request changes the count since c by its own admission only, whatever it prunes. */
  lemma CheckCounts(
      t: Tables, key: LimitsKey, limit: int, now: Time, p: Policy, k: LimitsKey, c: Time)
    requires now - p.window as real <= c
    ensures var (u, answer) := Check(t, key, limit, now, p);
            Since(TimesOf(u.rates, k), c)
            == Since(TimesOf(t.rates, k), c) + (if !answer.violated && k == key && c <= now then 1 else 0)
  {
    hide DeleteOlder, TimesOf, Since;
    var cutoff := now - p.window as real;
    PruningUnnoticed(t.rates, key, cutoff, k, c);
    InsertionCounts(DeleteOlder(t.rates, key, cutoff), RateRow(key, now), k, c);
  }

  /** The decision in terms of the table as it is before pruning. */
  lemma CheckDecides(t: Tables, key: LimitsKey, limit: int, now: Time, p: Policy)
    requires !Locked(t.cache, key.ip, now)
    ensures var recent, answer := Since(TimesOf(t.rates, key), now - p.window as real),
                                  Check(t, key, limit, now, p).1;
            && (answer.violated <==> recent >= limit + p.burst)
            && answer.count == (if answer.violated then recent else recent + 1)
  {
    DeleteOlderKeeps(t.rates, key, now - p.window as real, now - p.window as real);
  }

  /**
   In every run with a clock that does not go back, the pruned table and the whole history hold the same admissions
   of every key since any instant that a present or later window can reach.
   */
  lemma {:induction false} PrunedLogMatchesHistory(
      cache: map<CacheKey, CacheRow>, run: Run<Event>, p: Policy, k: LimitsKey, now: Time, c: Time)
    requires Clocked(run, now) && now - p.window as real <= c
    ensures Since(TimesOf(After(Tables([], cache), run, p).rates, k), c)
         == Since(Admitted(Tables([], cache), run, p, k), c)
  {
    match run
    case Start =>
    case Then(before, e) =>
      var t := Tables([], cache);
      PrunedLogMatchesHistory(cache, before, p, k, e.now, c);
      SinceAppend(Admitted(t, before, p, k), e.now, c);
      if e.Request? {
        CheckCounts(After(t, before, p), e.key, e.limit, e.now, p, k, c);
      }
  }

  lemma {:induction false} AdmittedUpTo(t: Tables, run: Run<Event>, p: Policy, k: LimitsKey, now: Time)
    requires Clocked(run, now)
    ensures UpTo(Admitted(t, run, p, k), now)
  {
    match run
    case Start =>
    case Then(before, e) => AdmittedUpTo(t, before, p, k, e.now);
  }

  /**
   Denial, exactly: an unpenalised request is denied if and only if limit + burst admissions of its key already lie
   in [now - window, now], and the count it reports is the number of admissions there.
   */
  lemma {:induction false} DeniedExactlyWhenWindowIsFull(
      cache: map<CacheKey, CacheRow>, run: Run<Event>, key: LimitsKey, limit: int, now: Time, p: Policy)
    requires Clocked(run, now)
    requires !Locked(After(Tables([], cache), run, p).cache, key.ip, now)
    ensures var inWindow := Within(Admitted(Tables([], cache), run, p, key), now - p.window as real, now);
            var answer := Check(After(Tables([], cache), run, p), key, limit, now, p).1;
            && (answer.violated <==> inWindow >= limit + p.burst)
            && answer.count == (if answer.violated then inWindow else inWindow + 1)
  {
    var t, cutoff := Tables([], cache), now - p.window as real;
    CheckDecides(After(t, run, p), key, limit, now, p);
    PrunedLogMatchesHistory(cache, run, p, key, now, cutoff);
    AdmittedUpTo(t, run, p, key, now);
    SinceIsWithin(Admitted(t, run, p, key), cutoff, now);
  }

  /** No request under key k came with a limit that, with the burst, exceeds the bound. */
  ghost predicate LimitedTo(run: Run<Event>, p: Policy, k: LimitsKey, bound: nat) {
    match run
    case Start => true
    case Then(before, e) =>
      LimitedTo(before, p, k, bound) && (e.Request? && e.key == k ==> e.limit + p.burst <= bound)
  }

  /** The sliding-window bound: no closed interval of the window's length holds more than limit + burst admissions. */
  lemma {:induction false} SlidingWindowBound(
      cache: map<CacheKey, CacheRow>, run: Run<Event>, p: Policy, k: LimitsKey, bound: nat, now: Time, from: Time)
    requires Clocked(run, now) && LimitedTo(run, p, k, bound)
    ensures Within(Admitted(Tables([], cache), run, p, k), from, from + p.window as real) <= bound
  {
    match run
    case Start =>
    case Then(before, e) =>
      var t, to := Tables([], cache), from + p.window as real;
      var log := Admitted(t, before, p, k);
      SlidingWindowBound(cache, before, p, k, bound, e.now, from);
      WithinAppend(log, e.now, from, to);
      if Admits(After(t, before, p), e, p) && e.key == k && e.now <= to {
        // The interval starts inside the window that the request was admitted into.
        DeniedExactlyWhenWindowIsFull(cache, before, k, e.limit, e.now, p);
        AdmittedUpTo(t, before, p, k, e.now);
        SinceIsWithin(log, e.now - p.window as real, e.now);
        WithinAtMostSince(log, from, to, e.now - p.window as real);
      }
  }

  /** A request never changes the rate-limit rows of another address or another API key. */
  lemma RequestTouchesOnlyItsKey(
      t: Tables, key: LimitsKey, limit: int, now: Time, p: Policy, other: LimitsKey)
    requires key != other
    ensures TimesOf(Check(t, key, limit, now, p).0.rates, other) == TimesOf(t.rates, other)
  {
    hide DeleteOlder, TimesOf, CountRows, Locked, Punish;
    DeleteOlderElsewhere(t.rates, key, now - p.window as real, other);
    TimesOfAppend(DeleteOlder(t.rates, key, now - p.window as real), RateRow(key, now), other);
  }

  // ---------------------------------------------------------------------------
  // Penalties
  // ---------------------------------------------------------------------------

  ghost predicate Before(run: Run<Event>, end: Time) {
    match run
    case Start => true
    case Then(before, e) => e.now < end && Before(before, end)
  }

  /** Once written, a penalty row stays as it is until it ends, whatever else uses the tables. */
  lemma {:induction false} PenaltyRowKept(t: Tables, run: Run<Event>, p: Policy, ip: string, row: CacheRow)
    requires Penalty(ip) in t.cache && t.cache[Penalty(ip)] == row
    requires row.expiresAt.Some? && Before(run, row.expiresAt.value)
    ensures Penalty(ip) in After(t, run, p).cache && After(t, run, p).cache[Penalty(ip)] == row
  {
    match run
    case Start =>
    case Then(before, e) => PenaltyRowKept(t, before, p, ip, row);
  }

  /**
   From the denial that reaches the threshold on, every request of the address is refused for the whole cooldown and
   leaves both tables as they are, whichever API key it comes with and whatever else happened meanwhile.
   */
  lemma PenaltyLastsTheCooldown(
      t: Tables, strike: Event, p: Policy, run: Run<Event>, key: LimitsKey, limit: int, now: Time)
    requires strike.Request? && !Locked(t.cache, strike.key.ip, strike.now) && !Admits(t, strike, p)
    requires NextViolation(t.cache, Violations(strike.key)) >= p.penaltyThreshold
    requires Before(run, strike.now + p.penaltyCooldown as real)
    requires key.ip == strike.key.ip && now < strike.now + p.penaltyCooldown as real
    ensures var u := After(Step(t, strike, p), run, p);
            Check(u, key, limit, now, p) == (u, Answer(true, limit + 1))
  {
    var row := CacheRow(Boolean(true), Some(strike.now + p.penaltyCooldown as real));
    PenaltyRowKept(Step(t, strike, p), run, p, key.ip, row);
  }

  /** Every event of the run happened in [from, to]. */
  ghost predicate Between(run: Run<Event>, from: Time, to: Time) {
    match run
    case Start => true
    case Then(before, e) => from <= e.now <= to && Between(before, from, to)
  }

  /** A strike is remembered for two windows: no clean-up drops its count before, and the count never goes down. */
  lemma {:induction false} StrikeRememberedTwoWindows(t: Tables, strike: Event, p: Policy, run: Run<Event>)
    requires strike.Request? && !Locked(t.cache, strike.key.ip, strike.now) && !Admits(t, strike, p)
    requires Between(run, strike.now, strike.now + (2 * p.window) as real)
    ensures var u, k := After(Step(t, strike, p), run, p), Violations(strike.key);
            && k in u.cache && u.cache[k].value.Number?
            && u.cache[k].value.n >= NextViolation(t.cache, k)
            && u.cache[k].expiresAt.Some? && u.cache[k].expiresAt.value >= strike.now + (2 * p.window) as real
  {
    match run
    case Start =>
    case Then(before, e) => StrikeRememberedTwoWindows(t, strike, p, before);
  }

  predicate Strikes(t: Tables, e: Event, p: Policy, key: LimitsKey) {
    e.Request? && e.key == key && !Locked(t.cache, key.ip, e.now) && !Admits(t, e, p)
  }

  const NO_ROWS := Tables([], map[])

  /** When a request under key was last over the limit: the denials that are not themselves due to a penalty. */
  function LastStrike(run: Run<Event>, p: Policy, key: LimitsKey): Option<Time> {
    match run
    case Start => None
    case Then(before, e) =>
      if Strikes(After(NO_ROWS, before, p), e, p, key) then Some(e.now) else LastStrike(before, p, key)
  }

  predicate LongerAgo(last: Option<Time>, span: int, now: Time) {
    last.Some? && last.value + span as real < now
  }

  /** The strikes under key, counted anew once a general write comes more than two windows after the last one. */
  function Level(run: Run<Event>, p: Policy, key: LimitsKey): nat {
    match run
    case Start => 0
    case Then(before, e) =>
      if Strikes(After(NO_ROWS, before, p), e, p, key) then Level(before, p, key) + 1
      else if e.CacheSet? && LongerAgo(LastStrike(before, p, key), 2 * p.window, e.now) then 0
      else Level(before, p, key)
  }

  /** A strike counts one up and renews the expiry; other requests leave the row as it is. */
  lemma RequestViolation(t: Tables, e: Event, p: Policy, key: LimitsKey)
    requires e.Request?
    ensures var cache, u, k := t.cache, Step(t, e, p).cache, Violations(key);
            if Strikes(t, e, p, key) then
              k in u && u[k] == CacheRow(Number(NextViolation(cache, k)), Some(e.now + (2 * p.window) as real))
            else (k in u <==> k in cache) && (k in u ==> u[k] == cache[k])
  {
  }

  lemma CleanUpViolation(t: Tables, e: Event, p: Policy, key: LimitsKey)
    requires !e.Request?
    ensures var cache, u, k := t.cache, Step(t, e, p).cache, Violations(key);
            && !Strikes(t, e, p, key)
            && (k in u ==> k in cache && u[k] == cache[k])
            && (k in cache ==>
                  (k !in u <==> e.CacheSet? && cache[k].expiresAt.Some? && cache[k].expiresAt.value < e.now))
  {
  }

  /** The count that follows a stored number. */
  lemma NextAfter(cache: map<CacheKey, CacheRow>, k: CacheKey, n: nat)
    requires k in cache <==> n > 0
    requires k in cache ==> cache[k].value == Number(n)
    ensures NextViolation(cache, k) == n + 1
  {
  }

  /**
   The stored violation count, in every run: the number of strikes since the count was last cleared. Admissions in
   between do not reset it; only a general write does, more than two windows after the last strike.
   */
  lemma {:induction false} ViolationCountIsLevel(run: Run<Event>, p: Policy, key: LimitsKey)
    ensures var cache, k, last := After(NO_ROWS, run, p).cache, Violations(key), LastStrike(run, p, key);
            && (k in cache <==> Level(run, p, key) > 0)
            && (k in cache ==>
                && last.Some?
                && cache[k] == CacheRow(Number(Level(run, p, key)), Some(last.value + (2 * p.window) as real)))
  {
    match run
    case Start =>
    case Then(before, e) =>
      ViolationCountIsLevel(before, p, key);
      if e.Request? {
        NextAfter(After(NO_ROWS, before, p).cache, Violations(key), Level(before, p, key));
        RequestViolation(After(NO_ROWS, before, p), e, p, key);
      } else {
        CleanUpViolation(After(NO_ROWS, before, p), e, p, key);
      }
      hide Step, Strikes, NextViolation;
  }

  /** When a strike of the address, under any of its API keys, last reached the threshold. */
  function LastPenalty(run: Run<Event>, p: Policy, ip: string): Option<Time> {
    match run
    case Start => None
    case Then(before, e) =>
      if e.Request? && e.key.ip == ip && Strikes(After(NO_ROWS, before, p), e, p, e.key)
         && Level(run, p, e.key) >= p.penaltyThreshold
      then Some(e.now)
      else LastPenalty(before, p, ip)
  }

  /** The penalty row is the one of the last penalty; it is missing only before the first or after the cooldown. */
  ghost predicate PenaltyRowOf(
      cache: map<CacheKey, CacheRow>, last: Option<Time>, p: Policy, ip: string, now: Time)
  {
    if Penalty(ip) in cache then
      last.Some? && cache[Penalty(ip)] == CacheRow(Boolean(true), Some(last.value + p.penaltyCooldown as real))
    else last == None || LongerAgo(last, p.penaltyCooldown, now)
  }

  /** A request writes the row exactly if it is a strike that reaches the threshold. */
  lemma RequestPenalty(t: Tables, e: Event, p: Policy, last: Option<Time>, ip: string)
    requires e.Request? && PenaltyRowOf(t.cache, last, p, ip, e.now)
    ensures var punished := e.key.ip == ip && Strikes(t, e, p, e.key)
                            && NextViolation(t.cache, Violations(e.key)) >= p.penaltyThreshold;
            PenaltyRowOf(Step(t, e, p).cache, if punished then Some(e.now) else last, p, ip, e.now)
  {
  }

  lemma CleanUpPenalty(t: Tables, e: Event, p: Policy, last: Option<Time>, ip: string)
    requires !e.Request? && PenaltyRowOf(t.cache, last, p, ip, e.now)
    ensures PenaltyRowOf(Step(t, e, p).cache, last, p, ip, e.now)
  {
  }

  lemma {:induction false} LastPenaltyIsStored(run: Run<Event>, p: Policy, ip: string, now: Time)
    requires Clocked(run, now)
    ensures PenaltyRowOf(After(NO_ROWS, run, p).cache, LastPenalty(run, p, ip), p, ip, now)
  {
    match run
    case Start =>
    case Then(before, e) =>
      var t := After(NO_ROWS, before, p);
      LastPenaltyIsStored(before, p, ip, e.now);
      assert PenaltyRowOf(Step(t, e, p).cache, LastPenalty(run, p, ip), p, ip, e.now) by {
        hide PenaltyRowOf, Step, Strikes;
        if e.Request? {
          ViolationCountIsLevel(before, p, e.key);
          RequestPenalty(t, e, p, LastPenalty(before, p, ip), ip);
        } else {
          CleanUpPenalty(t, e, p, LastPenalty(before, p, ip), ip);
        }
      }
      hide Step;
  }

  /**
   In every run an address is locked out exactly while its last strike at the threshold or above is less than the
   cooldown ago.
   */
  lemma LockedExactlyDuringCooldown(run: Run<Event>, p: Policy, ip: string, now: Time)
    requires Clocked(run, now)
    ensures var last := LastPenalty(run, p, ip);
            Locked(After(NO_ROWS, run, p).cache, ip, now)
            <==> last.Some? && now < last.value + p.penaltyCooldown as real
  {
    LastPenaltyIsStored(run, p, ip, now);
  }

  /** The answer as the history determines it: the last penalty and all admissions so far. */
  function HistoryAnswer(run: Run<Event>, key: LimitsKey, limit: int, now: Time, p: Policy): Answer {
    var last := LastPenalty(run, p, key.ip);
    var inWindow := Within(Admitted(NO_ROWS, run, p, key), now - p.window as real, now);
    if last.Some? && now < last.value + p.penaltyCooldown as real then Answer(true, limit + 1)
    else if inWindow >= limit + p.burst then Answer(true, inWindow)
    else Answer(false, inWindow + 1)
  }

  /** After any run, every request is answered as the history says. */
  lemma AnswersFromHistory(run: Run<Event>, key: LimitsKey, limit: int, now: Time, p: Policy)
    requires Clocked(run, now)
    ensures Check(After(NO_ROWS, run, p), key, limit, now, p).1 == HistoryAnswer(run, key, limit, now, p)
  {
    hide DeleteOlder, CountRows, Punish, Admitted, Within, After, LastPenalty;
    LockedExactlyDuringCooldown(run, p, key.ip, now);
    if !Locked(After(NO_ROWS, run, p).cache, key.ip, now) {
      DeniedExactlyWhenWindowIsFull(map[], run, key, limit, now, p);
    }
  }

  const SPACED := Policy(10, 0, 100, 2)

  /** With a limit of one: an admission, a strike, another admission in a new window, and another strike. */
  function SpacedStrikes(key: LimitsKey): Run<Event> {
    Then(Then(Then(Then(Start, Request(key, 1, 0.0)), Request(key, 1, 1.0)), Request(key, 1, 11.0)),
         Request(key, 1, 12.0))
  }

  lemma OneRow(r: RateRow, cutoff: Time)
    ensures DeleteOlder([r], r.key, cutoff) == if r.timestamp < cutoff then [] else [r]
    ensures CountRows([r], r.key) == 1 && CountRows([], r.key) == 0 && DeleteOlder([], r.key, cutoff) == []
  {
    assert [r][..0] == [];
    assert TimesOf([r], r.key) == [] + [r.timestamp];
  }

  lemma AfterRequest(run: Run<Event>, e: Event, p: Policy)
    ensures After(NO_ROWS, Then(run, e), p) == Step(After(NO_ROWS, run, p), e, p)
    ensures After(NO_ROWS, Start, p) == NO_ROWS
  {
  }

  /** Violations need not be consecutive: two strikes with an admission between them lock the address. */
  lemma SpacedStrikesLock(key: LimitsKey)
    ensures var run := SpacedStrikes(key);
            && Clocked(run, 13.0)
            && Admits(After(NO_ROWS, run.before.before, SPACED), run.before.last, SPACED)
            && Strikes(After(NO_ROWS, run.before.before.before, SPACED), run.before.before.last, SPACED, key)
            && Strikes(After(NO_ROWS, run.before, SPACED), run.last, SPACED, key)
            && Locked(After(NO_ROWS, run, SPACED).cache, key.ip, 13.0)
  {
    var a, b, c, d := Request(key, 1, 0.0), Request(key, 1, 1.0), Request(key, 1, 11.0), Request(key, 1, 12.0);
    var one := Then(Start, a);
    var two := Then(one, b);
    var three := Then(two, c);
    assert Clocked(Start, 0.0) && Clocked(one, 1.0) && Clocked(two, 11.0) && Clocked(three, 12.0);
    hide After;
    AfterRequest(Start, a, SPACED);
    AfterRequest(one, b, SPACED);
    AfterRequest(two, c, SPACED);
    AfterRequest(three, d, SPACED);
    var first, second := RateRow(key, 0.0), RateRow(key, 11.0);
    OneRow(first, -9.0);
    OneRow(first, 1.0);
    OneRow(second, 2.0);
    hide DeleteOlder, CountRows;
    var strikes := map[Violations(key) := CacheRow(Number(1), Some(21.0))];
    assert After(NO_ROWS, one, SPACED) == Tables([first], map[]);
    assert After(NO_ROWS, two, SPACED) == Tables([first], strikes);
    assert After(NO_ROWS, three, SPACED) == Tables([second], strikes);
  }

  // ---------------------------------------------------------------------------
  // The other users of the cache table
  // ---------------------------------------------------------------------------

  /** Nobody writes or deletes the row with the name. */
  ghost predicate Untouched(run: Run<Event>, name: string) {
    match run
    case Start => true
    case Then(before, e) => Untouched(before, name) && (e.CacheSet? || e.CacheDelete? ==> e.name != name)
  }

  /** A value that is set is there with its expiry until that has passed, whatever the limiter does. */
  lemma {:induction false} ValueKeptUntilExpiry(
      t: Tables, name: string, value: Json, ttl: Time, now: Time, run: Run<Event>, p: Policy)
    requires ttl >= 0.0 && Untouched(run, name) && BeforeOrAt(run, now + ttl)
    ensures var cache := After(Step(t, CacheSet(name, value, ttl, now), p), run, p).cache;
            General(name) in cache && cache[General(name)] == CacheRow(value, Some(now + ttl))
  {
    match run
    case Start =>
    case Then(before, e) => ValueKeptUntilExpiry(t, name, value, ttl, now, before, p);
  }

  ghost predicate BeforeOrAt(run: Run<Event>, end: Time) {
    match run
    case Start => true
    case Then(before, e) => e.now <= end && BeforeOrAt(before, end)
  }

  /** A write clears every row that has expired, of the limiter or not, and only those. */
  lemma WriteClearsExpired(t: Tables, name: string, value: Json, ttl: Time, now: Time, p: Policy, k: CacheKey)
    requires k != General(name)
    ensures var cache := Step(t, CacheSet(name, value, ttl, now), p).cache;
            k in cache <==> k in t.cache && (t.cache[k].expiresAt == None || now <= t.cache[k].expiresAt.value)
    ensures var cache := Step(t, CacheSet(name, value, ttl, now), p).cache; k in cache ==> cache[k] == t.cache[k]
  {
  }

  /** A count that is stored as a JSON boolean counts as 0 or 1, as it does in Python; anything else starts at 1. */
  lemma UnusualCounts(cache: map<CacheKey, CacheRow>, k: CacheKey)
    requires k in cache
    ensures cache[k].value == Boolean(true) ==> NextViolation(cache, k) == 1 + 1
    ensures cache[k].value == Boolean(false) ==> NextViolation(cache, k) == 0 + 1
    ensures cache[k].value == NonNumeric ==> NextViolation(cache, k) == 1
  {
  }
}
