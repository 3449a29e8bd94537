/**
 The circuit breaker and its storage: transitions change the cached circuit at once and schedule a write; a later task
 commits the row and only then replaces the cached circuit, so snapshots can land late and out of order.
 */
module CircuitBreaker {
  import opened Outcomes
  import opened Runs
  import opened Timeline

  datatype State = Closed | Open | HalfOpen

  datatype Circuit = Circuit(
    state: State, failures: int, successes: int, lastFailureTime: Option<Time>, trippedAt: Option<Time>)

  datatype Config = Config(enabled: bool, failureThreshold: int, successThreshold: int, timeout: int)

  /** A circuit as some task carries it: what a scheduled write will store, or what a reload has read. */
  datatype Snapshot = Snapshot(key: string, circuit: Circuit)

  const FRESH := Circuit(Closed, 0, 0, None, None)

  /**
   The cache, the table, and the tasks under way: `pending` writes have not reached the table yet, `committed` ones
   have but have not replaced the cached circuit yet, `reading` reloads have cleared the cache and wait for the rows,
   and `loading` rows have been read by a reload but not put in the cache yet.
   */
  datatype Store = Store(
    cache: map<string, Circuit>,
    table: map<string, Circuit>,
    pending: multiset<Snapshot>,
    committed: multiset<Snapshot>,
    reading: nat,
    loading: multiset<Snapshot>)

  const EMPTY := Store(map[], map[], multiset{}, multiset{}, 0, multiset{})

  function GetCircuit(cache: map<string, Circuit>, key: string): Circuit {
    if key in cache then cache[key] else FRESH
  }

  // ---------------------------------------------------------------------------
  // Transitions of one circuit; the flag says whether a write is scheduled
  // ---------------------------------------------------------------------------

  predicate TimedOut(c: Circuit, now: Time, cfg: Config) {
    c.trippedAt.Some? && c.trippedAt.value != 0.0 && now - c.trippedAt.value >= cfg.timeout as real
  }

  function OnIsOpen(c: Circuit, now: Time, cfg: Config): (Circuit, bool) {
    if c.state == Open && TimedOut(c, now, cfg) then (c.(state := HalfOpen, successes := 0), true) else (c, false)
  }

  /** The answer of is_open: whether traffic is rejected. */
  function Rejects(c: Circuit, now: Time, cfg: Config): bool {
    c.state == Open && !TimedOut(c, now, cfg)
  }

  function OnSuccess(c: Circuit, cfg: Config): (Circuit, bool) {
    match c.state
    case HalfOpen =>
      if c.successes + 1 >= cfg.successThreshold
      then (c.(state := Closed, failures := 0, successes := c.successes + 1), true)
      else (c.(successes := c.successes + 1), false)
    case Closed => (if c.failures > 0 then c.(failures := c.failures - 1) else c, false)
    case Open => (c, false)
  }

  function OnFailure(c: Circuit, now: Time, cfg: Config): (Circuit, bool) {
    var counted := c.(failures := c.failures + 1, lastFailureTime := Some(now));
    if counted.failures >= cfg.failureThreshold && c.state != Open
    then (counted.(state := Open, trippedAt := Some(now)), true)
    else (counted, false)
  }

  // ---------------------------------------------------------------------------
  // Steps of the whole system
  // ---------------------------------------------------------------------------

  datatype Event =
    | IsOpen(key: string, now: Time)
    | Success(key: string, now: Time)
    | Failure(key: string, now: Time)
    | Reset(key: string, now: Time)          // schedules the fixed closed snapshot
    | CommitRow(write: Snapshot, now: Time)  // a scheduled write reaches the table
    | ReplaceEntry(write: Snapshot, now: Time)   // and then the cache
    | BeginReload(now: Time)                 // the cache is cleared and the rows are asked for
    | ReadRows(now: Time)                    // the answer comes
    | LoadEntry(row: Snapshot, now: Time)    // one of the rows is put in the cache

  function Rows(table: map<string, Circuit>): set<Snapshot> {
    set k | k in table :: Snapshot(k, table[k])
  }

  /** A synchronous transition: the cached circuit changes at once and may leave a snapshot behind. */
  function Transition(s: Store, key: string, result: (Circuit, bool)): Store {
    s.(cache := s.cache[key := result.0],
       pending := if result.1 then s.pending + multiset{Snapshot(key, result.0)} else s.pending)
  }

  function Commit(s: Store, w: Snapshot): Store
    requires w in s.pending
  {
    s.(table := s.table[w.key := w.circuit],
       pending := s.pending - multiset{w}, committed := s.committed + multiset{w})
  }

  function Replace(s: Store, w: Snapshot): Store
    requires w in s.committed
  {
    s.(cache := s.cache[w.key := w.circuit], committed := s.committed - multiset{w})
  }

  function Fetch(s: Store): Store
    requires s.reading > 0
  {
    s.(reading := s.reading - 1, loading := s.loading + multiset(Rows(s.table)))
  }

  function Load(s: Store, row: Snapshot): Store
    requires row in s.loading
  {
    s.(cache := s.cache[row.key := row.circuit], loading := s.loading - multiset{row})
  }

  /** What a call makes of the system when the breaker is enabled. */
  function Called(s: Store, key: string, result: (Circuit, bool), cfg: Config): Store {
    if cfg.enabled then Transition(s, key, result) else s
  }

  function Step(s: Store, e: Event, cfg: Config): Store {
    match e
    case IsOpen(key, now) => Called(s, key, OnIsOpen(GetCircuit(s.cache, key), now, cfg), cfg)
    case Success(key, _) => Called(s, key, OnSuccess(GetCircuit(s.cache, key), cfg), cfg)
    case Failure(key, now) => Called(s, key, OnFailure(GetCircuit(s.cache, key), now, cfg), cfg)
    case Reset(key, _) => s.(pending := s.pending + multiset{Snapshot(key, FRESH)})
    case CommitRow(w, _) => if w in s.pending then Commit(s, w) else s
    case ReplaceEntry(w, _) => if w in s.committed then Replace(s, w) else s
    case BeginReload(_) => s.(cache := map[], reading := s.reading + 1)
    case ReadRows(_) => if s.reading > 0 then Fetch(s) else s
    case LoadEntry(r, _) => if r in s.loading then Load(s, r) else s
  }

  // ---------------------------------------------------------------------------
  // The classes
  // ---------------------------------------------------------------------------

  /** CircuitBreaker over SecurityStorage. */
  class Breaker {
    const cfg: Config
    var cache: map<string, Circuit>
    var table: map<string, Circuit>
    var pending: multiset<Snapshot>
    var committed: multiset<Snapshot>
    var reading: nat
    var loading: multiset<Snapshot>

    constructor (cfg: Config)
      ensures this.cfg == cfg && Contents() == EMPTY
    {
      this.cfg := cfg;
      cache, table := map[], map[];
      pending, committed, loading, reading := multiset{}, multiset{}, multiset{}, 0;
    }

    ghost function Contents(): Store
      reads this
    {
      Store(cache, table, pending, committed, reading, loading)
    }

    method GetCircuitCache(key: string) returns (circuit: Circuit)
      modifies this`cache
      ensures circuit == GetCircuit(old(cache), key)
      ensures cache == old(cache)[key := circuit]
    {
      if key !in cache {
        cache := cache[key := FRESH];
      }
      circuit := cache[key];
    }

    method PersistState(key: string, circuit: Circuit)
      modifies this`pending
      ensures pending == old(pending) + multiset{Snapshot(key, circuit)}
    {
      pending := pending + multiset{Snapshot(key, circuit)};
    }

    method CheckOpen(key: string, now: Time) returns (rejected: bool)
      modifies this
      ensures Contents() == Called(old(Contents()), key, OnIsOpen(GetCircuit(old(cache), key), now, cfg), cfg)
      ensures rejected == (cfg.enabled && Rejects(GetCircuit(old(cache), key), now, cfg))
    {
      if !cfg.enabled {
        return false;
      }
      var circuit := GetCircuitCache(key);
      if circuit.state != Open {
        return false;
      }
      var trippedAt := circuit.trippedAt;
      if trippedAt.Some? && trippedAt.value != 0.0 && now - trippedAt.value >= cfg.timeout as real {
        circuit := circuit.(state := HalfOpen);
        circuit := circuit.(successes := 0);
        cache := cache[key := circuit];
        assert cache == old(cache)[key := circuit];
        PersistState(key, circuit);
        return false;
      }
      return true;
    }

    method RecordSuccess(key: string, now: Time)
      modifies this
      ensures Contents() == Called(old(Contents()), key, OnSuccess(GetCircuit(old(cache), key), cfg), cfg)
    {
      if !cfg.enabled {
        return;
      }
      var circuit := GetCircuitCache(key);
      ghost var found := circuit;
      var stateChanged := false;
      if circuit.state == HalfOpen {
        circuit := circuit.(successes := circuit.successes + 1);
        if circuit.successes >= cfg.successThreshold {
          circuit := circuit.(state := Closed);
          circuit := circuit.(failures := 0);
          stateChanged := true;
        }
      } else if circuit.state == Closed {
        if circuit.failures > 0 {
          circuit := circuit.(failures := if circuit.failures - 1 > 0 then circuit.failures - 1 else 0);
        }
      }
      assert (circuit, stateChanged) == OnSuccess(found, cfg);
      cache := cache[key := circuit];
      assert cache == old(cache)[key := circuit];
      if stateChanged {
        PersistState(key, circuit);
      }
    }

    method RecordFailure(key: string, now: Time)
      modifies this
      ensures Contents() == Called(old(Contents()), key, OnFailure(GetCircuit(old(cache), key), now, cfg), cfg)
    {
      if !cfg.enabled {
        return;
      }
      var circuit := GetCircuitCache(key);
      circuit := circuit.(failures := circuit.failures + 1);
      circuit := circuit.(lastFailureTime := Some(now));
      var shouldTrip := circuit.failures >= cfg.failureThreshold;
      var isClosed := circuit.state != Open;
      if shouldTrip && isClosed {
        circuit := circuit.(state := Open);
        circuit := circuit.(trippedAt := Some(now));
        PersistState(key, circuit);
      }
      cache := cache[key := circuit];
      assert cache == old(cache)[key := circuit];
    }

    /** The first half of update_circuit, up to the commit. */
    method UpdateCircuitCommit(w: Snapshot)
      requires w in pending
      modifies this
      ensures Contents() == Commit(old(Contents()), w)
    {
      table := table[w.key := w.circuit];
      pending, committed := pending - multiset{w}, committed + multiset{w};
    }

    /** The second half, after the commit was awaited. */
    method UpdateCircuitCache(w: Snapshot)
      requires w in committed
      modifies this
      ensures Contents() == Replace(old(Contents()), w)
    {
      cache := cache[w.key := w.circuit];
      committed := committed - multiset{w};
    }

    /** The start of _load_circuit_breakers: the cache is cleared, and the query is awaited. */
    method LoadCircuitBreakers()
      modifies this`cache, this`reading
      ensures Contents() == old(Contents()).(cache := map[], reading := old(reading) + 1)
    {
      cache := map[];
      reading := reading + 1;
    }

    /** The query has been answered with the rows as they are by then. */
    method ReadCircuitBreakers()
      requires reading > 0
      modifies this`reading, this`loading
      ensures Contents() == Fetch(old(Contents()))
    {
      reading := reading - 1;
      loading := loading + multiset(Rows(table));
    }

    /** One turn of its loop, which other tasks may run in between: a row that was read is put in the cache. */
    method LoadCircuitBreaker(row: Snapshot)
      requires row in loading
      modifies this
      ensures Contents() == Load(old(Contents()), row)
    {
      cache := cache[row.key := row.circuit];
      loading := loading - multiset{row};
    }

    /** Manual reset: update_circuit with fixed values, a write like any other. */
    method ScheduleReset(key: string)
      modifies this`pending
      ensures pending == old(pending) + multiset{Snapshot(key, FRESH)}
    {
      PersistState(key, FRESH);
    }
  }

  // ---------------------------------------------------------------------------
  // The invariant
  // ---------------------------------------------------------------------------

  /** Up to when each circuit may have tripped. */
  type Bounds = string -> Time

  /** What every circuit satisfies, wherever it is kept; it tripped, if ever, by the given time. */
  ghost predicate Sound(c: Circuit, cfg: Config, latest: Time) {
    && c.failures >= 0
    && (c.state == Closed ==> c.failures < cfg.failureThreshold)
    && (c.state == Open ==> c.failures >= cfg.failureThreshold && c.trippedAt.Some?)
    && (c.state == HalfOpen ==> c.failures >= cfg.failureThreshold && 0 <= c.successes < cfg.successThreshold)
    && (c.trippedAt.Some? ==> 0.0 < c.trippedAt.value <= latest)
  }

  ghost predicate AllSound(circuits: map<string, Circuit>, cfg: Config, b: Bounds) {
    forall k :: k in circuits ==> Sound(circuits[k], cfg, b(k))
  }

  ghost predicate TasksSound(tasks: multiset<Snapshot>, cfg: Config, b: Bounds) {
    forall w :: w in tasks ==> Sound(w.circuit, cfg, b(w.key))
  }

  ghost predicate Invariant(s: Store, cfg: Config, b: Bounds) {
    && AllSound(s.cache, cfg, b)
    && AllSound(s.table, cfg, b)
    && TasksSound(s.pending, cfg, b)
    && TasksSound(s.committed, cfg, b)
    && TasksSound(s.loading, cfg, b)
  }

  function After(s: Store, run: Run<Event>, cfg: Config): Store {
    match run
    case Start => s
    case Then(before, e) => Step(After(s, before, cfg), e, cfg)
  }

  ghost predicate Positive(cfg: Config) {
    cfg.failureThreshold >= 1 && cfg.successThreshold >= 1 && cfg.timeout >= 1
  }

  /** Failures are recorded at positive clock readings, none later than the bound of its key. */
  ghost predicate FailuresBy(run: Run<Event>, b: Bounds) {
    match run
    case Start => true
    case Then(before, e) => FailuresBy(before, b) && (e.Failure? ==> 0.0 < e.now <= b(e.key))
  }

  lemma CallsKeepSound(c: Circuit, cfg: Config, now: Time, latest: Time)
    requires Positive(cfg) && Sound(c, cfg, latest)
    ensures Sound(OnIsOpen(c, now, cfg).0, cfg, latest)
    ensures Sound(OnSuccess(c, cfg).0, cfg, latest)
    ensures 0.0 < now <= latest ==> Sound(OnFailure(c, now, cfg).0, cfg, latest)
  {
  }

  lemma PutKeepsSound(m: map<string, Circuit>, key: string, c: Circuit, cfg: Config, b: Bounds)
    requires AllSound(m, cfg, b) && Sound(c, cfg, b(key))
    ensures AllSound(m[key := c], cfg, b)
  {
  }

  lemma AddKeepsSound(tasks: multiset<Snapshot>, w: Snapshot, cfg: Config, b: Bounds)
    requires TasksSound(tasks, cfg, b) && Sound(w.circuit, cfg, b(w.key))
    ensures TasksSound(tasks + multiset{w}, cfg, b)
  {
  }

  lemma RemoveKeepsSound(tasks: multiset<Snapshot>, w: Snapshot, cfg: Config, b: Bounds)
    requires TasksSound(tasks, cfg, b)
    ensures TasksSound(tasks - multiset{w}, cfg, b)
  {
  }

  lemma RowsKeepSound(s: Store, cfg: Config, b: Bounds)
    requires AllSound(s.table, cfg, b) && TasksSound(s.loading, cfg, b)
    ensures TasksSound(s.loading + multiset(Rows(s.table)), cfg, b)
  {
  }

  lemma TransitionKeepsInvariant(
      s: Store, key: string, result: (Circuit, bool), cfg: Config, b: Bounds)
    requires Invariant(s, cfg, b) && Sound(result.0, cfg, b(key))
    ensures Invariant(Transition(s, key, result), cfg, b)
  {
    hide AllSound, TasksSound, Sound;
    PutKeepsSound(s.cache, key, result.0, cfg, b);
    AddKeepsSound(s.pending, Snapshot(key, result.0), cfg, b);
  }

  lemma TaskKeepsInvariant(s: Store, e: Event, cfg: Config, b: Bounds)
    requires e.CommitRow? || e.ReplaceEntry? || e.LoadEntry?
    requires Invariant(s, cfg, b)
    ensures Invariant(Step(s, e, cfg), cfg, b)
  {
    hide AllSound, Sound;
    match e
    case CommitRow(w, _) =>
      if w in s.pending {
        PutKeepsSound(s.table, w.key, w.circuit, cfg, b);
        RemoveKeepsSound(s.pending, w, cfg, b);
        AddKeepsSound(s.committed, w, cfg, b);
      }
    case ReplaceEntry(w, _) =>
      if w in s.committed {
        PutKeepsSound(s.cache, w.key, w.circuit, cfg, b);
        RemoveKeepsSound(s.committed, w, cfg, b);
      }
    case LoadEntry(r, _) =>
      if r in s.loading {
        PutKeepsSound(s.cache, r.key, r.circuit, cfg, b);
        RemoveKeepsSound(s.loading, r, cfg, b);
      }
  }

  lemma StepKeepsInvariant(s: Store, e: Event, cfg: Config, b: Bounds)
    requires Positive(cfg) && Invariant(s, cfg, b)
    requires e.Failure? ==> 0.0 < e.now <= b(e.key)
    ensures Invariant(Step(s, e, cfg), cfg, b)
  {
    match e {
      case IsOpen(key, now) =>
        var c := GetCircuit(s.cache, key);
        CallsKeepSound(c, cfg, now, b(key));
        TransitionKeepsInvariant(s, key, OnIsOpen(c, now, cfg), cfg, b);
      case Success(key, now) =>
        var c := GetCircuit(s.cache, key);
        CallsKeepSound(c, cfg, now, b(key));
        TransitionKeepsInvariant(s, key, OnSuccess(c, cfg), cfg, b);
      case Failure(key, now) =>
        var c := GetCircuit(s.cache, key);
        CallsKeepSound(c, cfg, now, b(key));
        TransitionKeepsInvariant(s, key, OnFailure(c, now, cfg), cfg, b);
      case Reset(key, _) => AddKeepsSound(s.pending, Snapshot(key, FRESH), cfg, b);
      case BeginReload(_) =>
      case ReadRows(_) => RowsKeepSound(s, cfg, b);
      case _ => TaskKeepsInvariant(s, e, cfg, b);
    }
  }

  /**
   In every interleaving of calls, commits, cache replacements, resets and reloads, every circuit in the cache, in the
   table and in any task under way is sound.
   */
  lemma {:induction false} InvariantAlways(s: Store, run: Run<Event>, cfg: Config, b: Bounds)
    requires Positive(cfg) && Invariant(s, cfg, b) && FailuresBy(run, b)
    ensures Invariant(After(s, run, cfg), cfg, b)
  {
    match run
    case Start =>
    case Then(before, e) =>
      InvariantAlways(s, before, cfg, b);
      StepKeepsInvariant(After(s, before, cfg), e, cfg, b);
  }

  /** In every state with the invariant one failure in half-open trips the circuit again and schedules that write. */
  lemma {:induction false} HalfOpenFailureRetrips(s: Store, cfg: Config, b: Bounds, key: string, now: Time)
    requires Positive(cfg) && cfg.enabled && Invariant(s, cfg, b) && GetCircuit(s.cache, key).state == HalfOpen
    ensures var u := Step(s, Failure(key, now), cfg);
            && key in u.cache && u.cache[key].state == Open && u.cache[key].trippedAt == Some(now)
            && Snapshot(key, u.cache[key]) in u.pending
  {
    assert Sound(GetCircuit(s.cache, key), cfg, b(key));
  }

  /** No failure of key is recorded after t0; other keys' failures come at positive readings up to now. */
  ghost predicate QuietSince(run: Run<Event>, key: string, t0: Time, now: Time) {
    FailuresBy(run, k => if k == key then t0 else now)
  }

  /**
   An open circuit always yields: whatever stale snapshots land and whatever is reset or reloaded, a circuit for which
   no failure was recorded after t0 lets traffic through from t0 + timeout on, and asking does not reject it again.
   */
  lemma OpenYieldsAfterTimeout(
      s: Store, run: Run<Event>, cfg: Config, key: string, t0: Time, now: Time, later: Time)
    requires Positive(cfg) && Invariant(s, cfg, _ => t0) && t0 <= now
    requires QuietSince(run, key, t0, now)
    requires later >= t0 + cfg.timeout as real
    ensures var c := GetCircuit(After(s, run, cfg).cache, key);
            && !Rejects(c, later, cfg)
            && OnIsOpen(c, later, cfg).0.state != Open
  {
    var b: Bounds := k => if k == key then t0 else now;
    assert Invariant(s, cfg, b) by {
      hide TasksSound, AllSound;
      WiderBounds(s, cfg, _ => t0, b);
    }
    InvariantAlways(s, run, cfg, b);
  }

  lemma WiderBounds(s: Store, cfg: Config, b: Bounds, wider: Bounds)
    requires Invariant(s, cfg, b) && forall k :: b(k) <= wider(k)
    ensures Invariant(s, cfg, wider)
  {
  }
}
