/** The in-memory rate limiter: one counter and one expiry per key, in a cache whose entries live for a fixed time. */
module MemoryLimiter {
  import opened Outcomes
  import opened RateKeys
  import opened Runs
  import opened Timeline

  datatype Value = Number(n: int) | Instant(t: Time) | Flag

  /** A cache entry with the instant from which the cache no longer shows it. */
  datatype Entry = Entry(value: Value, expires: Time)

  type Cache = map<CacheKey, Entry>

  /** window, burst and threshold come from the rate limit settings, ttl is the default lifetime of cache entries. */
  datatype Policy = Policy(window: int, ttl: int, burst: int, penaltyThreshold: int)

  datatype Answer = Answer(violated: bool, count: int)

  predicate Visible(cache: Cache, key: CacheKey, now: Time) {
    key in cache && now < cache[key].expires
  }

  function NumberAt(cache: Cache, key: CacheKey, now: Time): int {
    if Visible(cache, key, now) && cache[key].value.Number? then cache[key].value.n else 0
  }

  function InstantAt(cache: Cache, key: CacheKey, now: Time): Time {
    if Visible(cache, key, now) && cache[key].value.Instant? then cache[key].value.t else 0.0
  }

  function Put(cache: Cache, key: CacheKey, value: Value, now: Time, p: Policy): Cache {
    cache[key := Entry(value, now + p.ttl as real)]
  }

  function Violate(cache: Cache, key: LimitsKey, now: Time, p: Policy): Cache {
    var n := NumberAt(cache, Violations(key), now) + 1;
    var counted := Put(cache, Violations(key), Number(n), now, p);
    if n >= p.penaltyThreshold then Put(counted, Penalty(key.ip), Flag, now, p) else counted
  }

  /** One request as a step on the cache. */
  function Check(cache: Cache, key: LimitsKey, limit: int, now: Time, p: Policy): (Cache, Answer) {
    if Visible(cache, Penalty(key.ip), now) then (cache, Answer(true, limit + 1))
    else
      var over := now > InstantAt(cache, Expiry(key), now);
      var based := if over then Put(cache, Expiry(key), Instant(now + p.window as real), now, p) else cache;
      var count := (if over then 0 else NumberAt(cache, Count(key), now)) + 1;
      var counted := Put(based, Count(key), Number(count), now, p);
      if count > limit + p.burst then (Violate(counted, key, now, p), Answer(true, count))
      else (counted, Answer(false, count))
  }

  class MemoryCache {
    var cache: Cache
    const policy: Policy

    constructor (policy: Policy)
      ensures cache == map[] && this.policy == policy
    {
      this.policy := policy;
      cache := map[];
    }

    method ApplyPenaltyViolation(key: LimitsKey, now: Time)
      modifies this
      ensures cache == Violate(old(cache), key, now, policy)
    {
      var violations := 1;
      var tracker := Violations(key);
      if tracker in cache && now < cache[tracker].expires && cache[tracker].value.Number? {
        violations := cache[tracker].value.n + 1;
      }
      cache := cache[tracker := Entry(Number(violations), now + policy.ttl as real)];
      if violations >= policy.penaltyThreshold {
        cache := cache[Penalty(key.ip) := Entry(Flag, now + policy.ttl as real)];
      }
    }

    method CheckRateLimit(key: LimitsKey, limit: int, now: Time) returns (violated: bool, count: int)
      modifies this
      ensures (cache, Answer(violated, count)) == Check(old(cache), key, limit, now, policy)
    {
      if Visible(cache, Penalty(key.ip), now) {
        return true, limit + 1;
      }
      count := NumberAt(cache, Count(key), now);
      var expiry := InstantAt(cache, Expiry(key), now);
      if now > expiry {
        count := 0;
        cache := Put(cache, Expiry(key), Instant(now + policy.window as real), now, policy);
      }
      count := count + 1;
      cache := Put(cache, Count(key), Number(count), now, policy);
      if count > limit + policy.burst {
        ApplyPenaltyViolation(key, now);
        return true, count;
      }
      return false, count;
    }
  }

  // ---------------------------------------------------------------------------
  // Runs
  // ---------------------------------------------------------------------------

  datatype Request = Request(key: LimitsKey, limit: int, now: Time)

  /** The clock starts above zero, never goes back, and reads no more than now after the run. */
  ghost predicate Clocked(run: Run<Request>, now: Time) {
    match run
    case Start => 0.0 < now
    case Then(before, r) => r.now <= now && Clocked(before, r.now)
  }

  function After(cache: Cache, run: Run<Request>, p: Policy): Cache {
    match run
    case Start => cache
    case Then(before, r) => Check(After(cache, before, p), r.key, r.limit, r.now, p).0
  }

  predicate Admits(cache: Cache, r: Request, p: Policy) {
    !Check(cache, r.key, r.limit, r.now, p).1.violated
  }

  /** Every admission under key k, oldest first. */
  function Admitted(run: Run<Request>, p: Policy, k: LimitsKey): seq<Time> {
    match run
    case Start => []
    case Then(before, r) =>
      var log := Admitted(before, p, k);
      if r.key == k && Admits(After(map[], before, p), r, p) then log + [r.now] else log
  }

  /** Every request under k comes with a limit that makes allowance together with the burst. */
  ghost predicate Allows(run: Run<Request>, p: Policy, k: LimitsKey, allowance: int) {
    match run
    case Start => true
    case Then(before, r) => Allows(before, p, k, allowance) && (r.key == k ==> r.limit + p.burst == allowance)
  }

  ghost predicate BoundedBy(run: Run<Request>, p: Policy, k: LimitsKey, bound: int) {
    forall from: Time, to: Time :: to == from + p.window as real ==> Within(Admitted(run, p, k), from, to) <= bound
  }

  // ---------------------------------------------------------------------------
  // The window invariant
  // ---------------------------------------------------------------------------

  /** log[o] opened the current window: what the two cache entries of k then hold, and how far back the last one is. */
  ghost predicate Opened(cache: Cache, log: seq<Time>, o: nat, p: Policy, k: LimitsKey, allowance: nat) {
    && o < |log|
    && |log| - o <= allowance
    && Expiry(k) in cache && Count(k) in cache
    && cache[Expiry(k)] == Entry(Instant(log[o] + p.window as real), log[o] + p.ttl as real)
    && cache[Count(k)].expires >= cache[Expiry(k)].expires
    && cache[Count(k)].value.Number?
    && cache[Count(k)].value.n >= |log| - o
    && (|log| - o < allowance ==> cache[Count(k)].value.n == |log| - o)
    && (o >= allowance ==> log[o - allowance] + p.window as real < log[o])
  }

  /** Any two admissions that are `gap` admissions apart are more than a window apart in time. */
  ghost predicate Spaced(log: seq<Time>, gap: int, p: Policy) {
    forall i, j :: 0 <= i < j < |log| && j == i + gap ==> log[i] + p.window as real < log[j]
  }

  ghost predicate WindowState(cache: Cache, log: seq<Time>, p: Policy, k: LimitsKey, allowance: nat) {
    && Sorted(log)
    && Spaced(log, 2 * allowance - 1, p)
    && if log == [] then Expiry(k) !in cache && Count(k) !in cache
       else exists o: nat :: Opened(cache, log, o, p, k, allowance)
  }

  lemma FirstRequestOpens(cache: Cache, r: Request, p: Policy, allowance: nat)
    requires 0.0 < r.now && r.limit + p.burst == allowance >= 1
    requires Expiry(r.key) !in cache && Count(r.key) !in cache && !Visible(cache, Penalty(r.key.ip), r.now)
    ensures Admits(cache, r, p)
    ensures Opened(Check(cache, r.key, r.limit, r.now, p).0, [r.now], 0, p, r.key, allowance)
  {
  }

  /** Inside the window the counter goes up, and the request is admitted while the allowance lasts. */
  lemma LiveWindowCounts(
      cache: Cache, log: seq<Time>, o: nat, r: Request, p: Policy, allowance: nat)
    requires p.ttl > p.window && r.limit + p.burst == allowance >= 1
    requires Opened(cache, log, o, p, r.key, allowance) && !Visible(cache, Penalty(r.key.ip), r.now)
    requires log[o] <= r.now <= log[o] + p.window as real
    ensures Admits(cache, r, p) <==> |log| - o < allowance
    ensures var log' := if Admits(cache, r, p) then log + [r.now] else log;
            Opened(Check(cache, r.key, r.limit, r.now, p).0, log', o, p, r.key, allowance)
  {
  }

  /** Past the window, or once the cache has forgotten it, the request opens a new one with its own admission. */
  lemma StaleWindowReopens(
      cache: Cache, log: seq<Time>, o: nat, r: Request, p: Policy, allowance: nat)
    requires p.ttl > p.window && r.limit + p.burst == allowance >= 1 && 0.0 < r.now
    requires Opened(cache, log, o, p, r.key, allowance) && !Visible(cache, Penalty(r.key.ip), r.now)
    requires Sorted(log) && r.now > log[o] + p.window as real
    ensures Admits(cache, r, p)
    ensures Opened(Check(cache, r.key, r.limit, r.now, p).0, log + [r.now], |log|, p, r.key, allowance)
  {
    var log' := log + [r.now];
    if |log| >= allowance {
      assert log'[|log| - allowance] <= log[o];
    }
  }

  /** The admission that comes 2 * allowance - 1 after another one is in the second window after it. */
  lemma AppendSpaced(log: seq<Time>, o: nat, now: Time, p: Policy, allowance: nat)
    requires allowance >= 1 && Sorted(log) && Spaced(log, 2 * allowance - 1, p) && UpTo(log, now)
    requires o < |log| && |log| - o <= allowance
    requires (|log| - o < allowance && (o >= allowance ==> log[o - allowance] + p.window as real < log[o]))
          || now > log[o] + p.window as real
    ensures Sorted(log + [now]) && Spaced(log + [now], 2 * allowance - 1, p)
  {
    var log' := log + [now];
    var i := |log| - (2 * allowance - 1);
    if i >= 0 {
      assert log[o] <= now;
      assert log'[i] + p.window as real < now by {
        if |log| - o < allowance && o >= allowance {
          assert i <= o - allowance;
        } else {
          assert i <= o;
        }
      }
    }
  }

  lemma RequestKeepsWindow(cache: Cache, log: seq<Time>, r: Request, p: Policy, allowance: nat)
    requires p.ttl > p.window && r.limit + p.burst == allowance >= 1 && 0.0 < r.now
    requires WindowState(cache, log, p, r.key, allowance) && UpTo(log, r.now)
    ensures var log' := if Admits(cache, r, p) then log + [r.now] else log;
            WindowState(Check(cache, r.key, r.limit, r.now, p).0, log', p, r.key, allowance)
  {
    if !Visible(cache, Penalty(r.key.ip), r.now) {
      if log == [] {
        FirstRequestOpens(cache, r, p, allowance);
        assert log + [r.now] == [r.now];
      } else {
        var o: nat :| Opened(cache, log, o, p, r.key, allowance);
        if r.now <= log[o] + p.window as real {
          LiveWindowCounts(cache, log, o, r, p, allowance);
        } else {
          StaleWindowReopens(cache, log, o, r, p, allowance);
        }
        if Admits(cache, r, p) {
          AppendSpaced(log, o, r.now, p, allowance);
        }
      }
    }
  }

  lemma {:induction false} AdmittedUpTo(run: Run<Request>, p: Policy, k: LimitsKey, now: Time)
    requires Clocked(run, now)
    ensures UpTo(Admitted(run, p, k), now) && 0.0 < now
  {
    match run
    case Start =>
    case Then(before, r) => AdmittedUpTo(before, p, k, r.now);
  }

  lemma {:induction false} WindowStateReached(run: Run<Request>, p: Policy, k: LimitsKey, allowance: nat, now: Time)
    requires p.ttl > p.window && allowance >= 1
    requires Clocked(run, now) && Allows(run, p, k, allowance)
    ensures WindowState(After(map[], run, p), Admitted(run, p, k), p, k, allowance)
  {
    match run
    case Start =>
    case Then(before, r) =>
      WindowStateReached(before, p, k, allowance, r.now);
      AdmittedUpTo(before, p, k, r.now);
      var cache, log := After(map[], before, p), Admitted(before, p, k);
      if r.key == k {
        RequestKeepsWindow(cache, log, r, p, allowance);
      } else if log != [] {
        var o: nat :| Opened(cache, log, o, p, k, allowance);
        assert Opened(Check(cache, r.key, r.limit, r.now, p).0, log, o, p, k, allowance);
      }
  }

  // ---------------------------------------------------------------------------
  // The bound
  // ---------------------------------------------------------------------------

  lemma {:induction false} SpacedMeansFew(log: seq<Time>, gap: nat, p: Policy, from: Time)
    requires gap >= 1 && Sorted(log) && Spaced(log, gap, p)
    ensures Within(log, from, from + p.window as real) <= gap
  {
    if |log| > gap {
      var n := |log| - 1;
      if from <= log[n] <= from + p.window as real {
        var i := n - gap;
        assert log[i] + p.window as real < log[n];
        WithinSuffix(log, i + 1, from, from + p.window as real);
      } else {
        SpacedMeansFew(log[..n], gap, p, from);
      }
    }
  }

  /** In every run, no closed interval of the window's length holds more than 2 * allowance - 1 admissions of a key. */
  lemma FixedWindowBound(run: Run<Request>, p: Policy, k: LimitsKey, allowance: nat, now: Time)
    requires p.ttl > p.window && allowance >= 1
    requires Clocked(run, now) && Allows(run, p, k, allowance)
    ensures BoundedBy(run, p, k, 2 * allowance - 1)
  {
    hide Admitted, After, Within, Clocked, Allows, Opened, Sorted, Spaced;
    WindowStateReached(run, p, k, allowance, now);
    forall from: Time, to: Time | to == from + p.window as real
      ensures Within(Admitted(run, p, k), from, to) <= 2 * allowance - 1
    {
      SpacedMeansFew(Admitted(run, p, k), 2 * allowance - 1, p, from);
    }
  }

  // ---------------------------------------------------------------------------
  // Runs that reach the bound, and that pass it when the cache forgets too early
  // ---------------------------------------------------------------------------

  /** At this instant the window of k is open, count requests in it were made, and no penalty is around. */
  ghost predicate Counting(cache: Cache, k: LimitsKey, now: Time, count: nat) {
    && Penalty(k.ip) !in cache
    && Visible(cache, Expiry(k), now) && cache[Expiry(k)].value.Instant? && now <= cache[Expiry(k)].value.t
    && Visible(cache, Count(k), now) && cache[Count(k)].value == Number(count)
  }

  ghost predicate Stale(cache: Cache, k: LimitsKey, now: Time) {
    && Penalty(k.ip) !in cache
    && now > InstantAt(cache, Expiry(k), now)
  }

  lemma OpenOne(cache: Cache, r: Request, p: Policy)
    requires p.ttl >= 1 && p.window >= 0 && r.limit + p.burst >= 1 && Stale(cache, r.key, r.now)
    ensures Admits(cache, r, p) && Counting(Check(cache, r.key, r.limit, r.now, p).0, r.key, r.now, 1)
    ensures Check(cache, r.key, r.limit, r.now, p).0[Expiry(r.key)]
         == Entry(Instant(r.now + p.window as real), r.now + p.ttl as real)
  {
  }

  lemma CountOne(cache: Cache, r: Request, p: Policy, count: nat)
    requires p.ttl >= 1 && count < r.limit + p.burst && Counting(cache, r.key, r.now, count)
    ensures Admits(cache, r, p) && Counting(Check(cache, r.key, r.limit, r.now, p).0, r.key, r.now, count + 1)
    ensures Check(cache, r.key, r.limit, r.now, p).0[Expiry(r.key)] == cache[Expiry(r.key)]
    ensures Check(cache, r.key, r.limit, r.now, p).0[Count(r.key)].expires == r.now + p.ttl as real
  {
  }

  /** A batch of n requests that fits into the open window is admitted as a whole. */
  lemma {:induction false} BatchAdmitted(
      run: Run<Request>, r: Request, n: nat, p: Policy, count: nat, from: Time, to: Time)
    requires p.ttl >= 1 && count + n <= r.limit + p.burst && from <= r.now <= to
    requires Clocked(run, r.now) && Allows(run, p, r.key, r.limit + p.burst)
    requires Counting(After(map[], run, p), r.key, r.now, count)
    ensures var all := Repeat(run, r, n);
            && Clocked(all, r.now) && Allows(all, p, r.key, r.limit + p.burst)
            && Counting(After(map[], all, p), r.key, r.now, count + n)
            && After(map[], all, p)[Expiry(r.key)] == After(map[], run, p)[Expiry(r.key)]
            && (n > 0 ==> After(map[], all, p)[Count(r.key)].expires == r.now + p.ttl as real)
            && Within(Admitted(all, p, r.key), from, to) == Within(Admitted(run, p, r.key), from, to) + n
  {
    if n > 0 {
      BatchAdmitted(run, r, n - 1, p, count, from, to);
      var most := Repeat(run, r, n - 1);
      CountOne(After(map[], most, p), r, p, count + n - 1);
      WithinAppend(Admitted(most, p, r.key), r.now, from, to);
    }
  }

  /** A request that opens a window, followed by as many as the window still takes. */
  lemma {:induction false} FullWindow(run: Run<Request>, r: Request, p: Policy, from: Time, to: Time)
    requires p.ttl >= 1 && p.window >= 0 && r.limit + p.burst >= 1 && from <= r.now <= to
    requires Clocked(run, r.now) && Allows(run, p, r.key, r.limit + p.burst)
    requires Stale(After(map[], run, p), r.key, r.now)
    ensures var all := Repeat(Then(run, r), r, r.limit + p.burst - 1);
            && Clocked(all, r.now) && Allows(all, p, r.key, r.limit + p.burst)
            && Penalty(r.key.ip) !in After(map[], all, p) && Expiry(r.key) in After(map[], all, p)
            && After(map[], all, p)[Expiry(r.key)] == Entry(Instant(r.now + p.window as real), r.now + p.ttl as real)
            && Within(Admitted(all, p, r.key), from, to)
                == Within(Admitted(run, p, r.key), from, to) + r.limit + p.burst
  {
    OpenOne(After(map[], run, p), r, p);
    WithinAppend(Admitted(run, p, r.key), r.now, from, to);
    BatchAdmitted(Then(run, r), r, r.limit + p.burst - 1, p, 1, from, to);
  }

  /** Some run reaches 2 * allowance - 1: late in one window, then all of the next. */
  lemma BoundIsReached(p: Policy, k: LimitsKey, allowance: nat)
      returns (run: Run<Request>, now: Time)
    requires p.ttl > p.window >= 1 && allowance >= 1
    ensures Clocked(run, now) && Allows(run, p, k, allowance)
    ensures Within(Admitted(run, p, k), now - p.window as real, now) == 2 * allowance - 1
  {
    var limit, w := allowance - p.burst, p.window as real;
    var open, late, next := Request(k, limit, 1.0), Request(k, limit, 1.0 + w), Request(k, limit, 2.0 + w);
    now := 2.0 + w;
    OpenOne(map[], open, p);
    var first := Then(Start, open);
    WithinAppend([], 1.0, now - w, now);
    assert Admitted(first, p, k) == [] + [1.0];
    BatchAdmitted(first, late, allowance - 1, p, 1, now - w, now);
    var second := Repeat(first, late, allowance - 1);
    FullWindow(second, next, p, now - w, now);
    run := Repeat(Then(second, next), next, allowance - 1);
  }

  /** A cache that forgets within the window lets two whole windows into one interval. */
  lemma ShortLifetimeDoubles(p: Policy, k: LimitsKey, allowance: nat)
      returns (run: Run<Request>, now: Time)
    requires 1 <= p.ttl <= p.window && allowance >= 1
    ensures Clocked(run, now) && Allows(run, p, k, allowance)
    ensures Within(Admitted(run, p, k), 1.0, 1.0 + p.window as real) == 2 * allowance
  {
    var limit, to := allowance - p.burst, 1.0 + p.window as real;
    var open, again := Request(k, limit, 1.0), Request(k, limit, 1.0 + p.ttl as real);
    now := 1.0 + p.ttl as real;
    FullWindow(Start, open, p, 1.0, to);
    var first := Repeat(Then(Start, open), open, allowance - 1);
    FullWindow(first, again, p, 1.0, to);
    run := Repeat(Then(first, again), again, allowance - 1);
  }

  /**
   The bound of 2 * allowance - 1 holds in all runs exactly when cache entries outlive the window. Equal settings, such
   as the defaults of 60 seconds each, are not enough.
   */
  lemma BoundedIffEntriesOutliveWindow(p: Policy, k: LimitsKey, allowance: nat)
    requires p.ttl >= 1 && p.window >= 1 && allowance >= 1
    ensures (forall run: Run<Request>, now: Time ::
               Clocked(run, now) && Allows(run, p, k, allowance) ==> BoundedBy(run, p, k, 2 * allowance - 1))
       <==> p.ttl > p.window
  {
    if p.ttl > p.window {
      forall run: Run<Request>, now: Time | Clocked(run, now) && Allows(run, p, k, allowance)
        ensures BoundedBy(run, p, k, 2 * allowance - 1)
      {
        FixedWindowBound(run, p, k, allowance, now);
      }
    } else {
      var run, now := ShortLifetimeDoubles(p, k, allowance);
      assert Within(Admitted(run, p, k), 1.0, 1.0 + p.window as real) > 2 * allowance - 1;
      assert exists r: Run<Request>, t: Time ::
          Clocked(r, t) && Allows(r, p, k, allowance) && !BoundedBy(r, p, k, 2 * allowance - 1);
    }
  }

  // ---------------------------------------------------------------------------
  // Penalties
  // ---------------------------------------------------------------------------

  ghost predicate Before(run: Run<Request>, end: Time) {
    match run
    case Start => true
    case Then(before, r) => r.now < end && Before(before, end)
  }

  lemma {:induction false} PenaltyEntryKept(cache: Cache, run: Run<Request>, p: Policy, ip: string)
    requires Penalty(ip) in cache && Before(run, cache[Penalty(ip)].expires)
    ensures Penalty(ip) in After(cache, run, p) && After(cache, run, p)[Penalty(ip)] == cache[Penalty(ip)]
  {
    match run
    case Start =>
    case Then(before, r) => PenaltyEntryKept(cache, before, p, ip);
  }

  /**
   A penalty lasts for the lifetime of a cache entry, not for the configured cooldown: until then every request of the
   address is refused and changes nothing, and at that instant the penalty is gone.
   */
  lemma PenaltyLastsTheLifetime(
      cache: Cache, strike: Request, p: Policy, run: Run<Request>, key: LimitsKey, limit: int, now: Time)
    requires !Visible(cache, Penalty(strike.key.ip), strike.now) && !Admits(cache, strike, p)
    requires NumberAt(cache, Violations(strike.key), strike.now) + 1 >= p.penaltyThreshold
    requires Before(run, strike.now + p.ttl as real) && key.ip == strike.key.ip
    ensures var u := After(Check(cache, strike.key, strike.limit, strike.now, p).0, run, p);
            && Visible(u, Penalty(key.ip), now) == (now < strike.now + p.ttl as real)
            && (now < strike.now + p.ttl as real ==> Check(u, key, limit, now, p) == (u, Answer(true, limit + 1)))
  {
    PenaltyEntryKept(Check(cache, strike.key, strike.limit, strike.now, p).0, run, p, key.ip);
  }

  // ---------------------------------------------------------------------------
  // A limiter that remembers everything
  // ---------------------------------------------------------------------------

  /** A window: when it was opened, and how many requests it has counted. */
  datatype Window = Window(openedAt: Time, counted: nat)

  /** Less than a lifetime has passed since then. */
  predicate Alive(last: Option<Time>, now: Time, p: Policy) {
    last.Some? && now < last.value + p.ttl as real
  }

  predicate StillOpen(w: Option<Window>, now: Time, p: Policy) {
    w.Some? && now <= w.value.openedAt + p.window as real && now < w.value.openedAt + p.ttl as real
  }

  /** The answer as the history determines it, with no cache at all. */
  function HistoryAnswer(run: Run<Request>, key: LimitsKey, limit: int, now: Time, p: Policy): Answer
    decreases run, 1
  {
    if Alive(LastPenalty(run, p, key.ip), now, p) then Answer(true, limit + 1)
    else
      var w := LastWindow(run, p, key);
      var count := (if StillOpen(w, now, p) then w.value.counted else 0) + 1;
      Answer(count > limit + p.burst, count)
  }

  /** The request, made after the run, is over the limit and not refused for a penalty. */
  predicate Strikes(run: Run<Request>, r: Request, p: Policy)
    decreases run, 2
  {
    !Alive(LastPenalty(run, p, r.key.ip), r.now, p) && HistoryAnswer(run, r.key, r.limit, r.now, p).violated
  }

  /** The last window of the key: each request without a penalty counts in it, or opens the next one. */
  function LastWindow(run: Run<Request>, p: Policy, key: LimitsKey): Option<Window>
    decreases run, 0
  {
    match run
    case Start => None
    case Then(before, r) =>
      var w := LastWindow(before, p, key);
      if r.key != key || Alive(LastPenalty(before, p, key.ip), r.now, p) then w
      else if StillOpen(w, r.now, p) then Some(w.value.(counted := w.value.counted + 1))
      else Some(Window(r.now, 1))
  }

  function LastStrike(run: Run<Request>, p: Policy, key: LimitsKey): Option<Time>
    decreases run, 0
  {
    match run
    case Start => None
    case Then(before, r) => if r.key == key && Strikes(before, r, p) then Some(r.now) else LastStrike(before, p, key)
  }

  /** Strikes that follow each other within a lifetime add up. */
  function Level(run: Run<Request>, p: Policy, key: LimitsKey): nat
    decreases run, 0
  {
    match run
    case Start => 0
    case Then(before, r) =>
      if r.key == key && Strikes(before, r, p)
      then (if Alive(LastStrike(before, p, key), r.now, p) then Level(before, p, key) else 0) + 1
      else Level(before, p, key)
  }

  /** When a strike of the address, under any of its API keys, last reached the threshold. */
  function LastPenalty(run: Run<Request>, p: Policy, ip: string): Option<Time>
    decreases run, 0
  {
    match run
    case Start => None
    case Then(before, r) =>
      if r.key.ip == ip && Strikes(before, r, p)
         && (if Alive(LastStrike(before, p, r.key), r.now, p) then Level(before, p, r.key) else 0) + 1
            >= p.penaltyThreshold
      then Some(r.now)
      else LastPenalty(before, p, ip)
  }

  ghost predicate WindowStored(cache: Cache, w: Option<Window>, p: Policy, key: LimitsKey, now: Time) {
    match w
    case None => Expiry(key) !in cache && Count(key) !in cache
    case Some(Window(openedAt, counted)) =>
      && openedAt <= now
      && Expiry(key) in cache && Count(key) in cache
      && cache[Expiry(key)] == Entry(Instant(openedAt + p.window as real), openedAt + p.ttl as real)
      && cache[Count(key)].value == Number(counted) && cache[Count(key)].expires >= openedAt + p.ttl as real
  }

  ghost predicate StrikesStored(cache: Cache, last: Option<Time>, level: nat, p: Policy, key: LimitsKey) {
    if Violations(key) in cache
    then last.Some? && cache[Violations(key)] == Entry(Number(level), last.value + p.ttl as real)
    else last == None
  }

  ghost predicate PenaltyStored(cache: Cache, last: Option<Time>, p: Policy, ip: string) {
    if Penalty(ip) in cache
    then last.Some? && cache[Penalty(ip)] == Entry(Flag, last.value + p.ttl as real)
    else last == None
  }

  /** The cache holds what the history says about the key and its address. */
  ghost predicate Mirrors(run: Run<Request>, p: Policy, key: LimitsKey, now: Time) {
    var cache := After(map[], run, p);
    && WindowStored(cache, LastWindow(run, p, key), p, key, now)
    && StrikesStored(cache, LastStrike(run, p, key), Level(run, p, key), p, key)
    && PenaltyStored(cache, LastPenalty(run, p, key.ip), p, key.ip)
  }

  /** Then the next request of the key is answered as the history says. */
  lemma MirroredAnswer(run: Run<Request>, key: LimitsKey, limit: int, now: Time, p: Policy)
    requires 0.0 < now && Mirrors(run, p, key, now)
    ensures Check(After(map[], run, p), key, limit, now, p).1 == HistoryAnswer(run, key, limit, now, p)
    ensures Visible(After(map[], run, p), Penalty(key.ip), now) <==> Alive(LastPenalty(run, p, key.ip), now, p)
  {
  }

  lemma OwnWindowStored(before: Run<Request>, r: Request, p: Policy)
    requires 0.0 < r.now && p.ttl >= 0 && Mirrors(before, p, r.key, r.now)
    ensures var run := Then(before, r);
            WindowStored(After(map[], run, p), LastWindow(run, p, r.key), p, r.key, r.now)
  {
    MirroredAnswer(before, r.key, r.limit, r.now, p);
    hide HistoryAnswer, Strikes, Level, LastStrike, StrikesStored, PenaltyStored;
  }

  lemma OwnStrikesStored(before: Run<Request>, r: Request, p: Policy)
    requires 0.0 < r.now && Mirrors(before, p, r.key, r.now)
    ensures var run := Then(before, r);
            StrikesStored(After(map[], run, p), LastStrike(run, p, r.key), Level(run, p, r.key), p, r.key)
  {
    MirroredAnswer(before, r.key, r.limit, r.now, p);
    hide HistoryAnswer, LastWindow, WindowStored, PenaltyStored;
  }

  lemma OwnPenaltyStored(before: Run<Request>, r: Request, p: Policy)
    requires 0.0 < r.now && Mirrors(before, p, r.key, r.now)
    ensures var run := Then(before, r);
            PenaltyStored(After(map[], run, p), LastPenalty(run, p, r.key.ip), p, r.key.ip)
  {
    MirroredAnswer(before, r.key, r.limit, r.now, p);
    hide HistoryAnswer, LastWindow, WindowStored;
  }

  lemma OwnRequestMirrored(before: Run<Request>, r: Request, p: Policy)
    requires 0.0 < r.now && p.ttl >= 0 && Mirrors(before, p, r.key, r.now)
    ensures Mirrors(Then(before, r), p, r.key, r.now)
  {
    OwnWindowStored(before, r, p);
    OwnStrikesStored(before, r, p);
    OwnPenaltyStored(before, r, p);
    hide WindowStored, StrikesStored, PenaltyStored, LastWindow, LastStrike, Level, LastPenalty, After;
  }

  lemma OtherRequestMirrored(before: Run<Request>, r: Request, p: Policy, key: LimitsKey)
    requires 0.0 < r.now && r.key != key && Mirrors(before, p, key, r.now) && Mirrors(before, p, r.key, r.now)
    ensures Mirrors(Then(before, r), p, key, r.now)
  {
    MirroredAnswer(before, r.key, r.limit, r.now, p);
  }

  lemma {:induction false} MirrorsAlways(run: Run<Request>, p: Policy, key: LimitsKey, now: Time)
    requires Clocked(run, now) && p.ttl >= 0
    ensures Mirrors(run, p, key, now) && 0.0 < now
  {
    match run
    case Start =>
    case Then(before, r) =>
      MirrorsAlways(before, p, key, r.now);
      MirrorsAlways(before, p, r.key, r.now);
      if r.key == key {
        OwnRequestMirrored(before, r, p);
      } else {
        OtherRequestMirrored(before, r, p, key);
      }
  }

  /**
   In every run an address is locked out exactly while its last strike at the threshold or above is less than an entry
   lifetime ago.
   */
  lemma LockedExactlyDuringLifetime(run: Run<Request>, p: Policy, key: LimitsKey, now: Time)
    requires Clocked(run, now) && p.ttl >= 0
    ensures Visible(After(map[], run, p), Penalty(key.ip), now) <==> Alive(LastPenalty(run, p, key.ip), now, p)
  {
    MirrorsAlways(run, p, key, now);
    MirroredAnswer(run, key, 0, now, p);
  }

  /** After any run, every request is answered as by a limiter that has no cache and remembers everything. */
  lemma AnswersFromHistory(run: Run<Request>, key: LimitsKey, limit: int, now: Time, p: Policy)
    requires Clocked(run, now) && p.ttl >= 0
    ensures Check(After(map[], run, p), key, limit, now, p).1 == HistoryAnswer(run, key, limit, now, p)
  {
    MirrorsAlways(run, p, key, now);
    MirroredAnswer(run, key, limit, now, p);
  }
}
