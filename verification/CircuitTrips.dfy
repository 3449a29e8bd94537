/** When a circuit trips, in closed form, and how long it stays tripped while stale snapshots may land. */
module CircuitTrips {
  import opened CircuitBreaker
  import opened CircuitTasks
  import opened Outcomes
  import opened Runs
  import opened Timeline

  // ---------------------------------------------------------------------------
  // How long a trip lasts
  // ---------------------------------------------------------------------------

  /** An open circuit that did not trip before t0, unless it has no usable trip time at all. */
  predicate OpenFrom(c: Circuit, t0: Time) {
    c.state == Open && (c.trippedAt.Some? && c.trippedAt.value != 0.0 ==> c.trippedAt.value >= t0)
  }

  ghost function OpenSince(t0: Time): Property {
    c => OpenFrom(c, t0)
  }

  /** Whatever is called and whatever lands from now on, traffic of key is rejected until the timeout after t0. */
  ghost predicate RejectsThroughout(s: Store, key: string, t0: Time, now: Time, cfg: Config) {
    forall run: Run<Event>, later: Time ::
      LeftAlone(run, key) && Clocked(run, now, later) && later < t0 + cfg.timeout as real
      ==> Rejects(GetCircuit(After(s, run, cfg).cache, key), later, cfg)
  }

  /** A call, which writes nothing for an open circuit whose timeout has not passed. */
  lemma CallStaysOpen(s: Store, e: Event, cfg: Config, key: string, t0: Time)
    requires e.IsOpen? || e.Success? || e.Failure?
    requires OpenFrom(GetCircuit(s.cache, key), t0) && TasksCarry(s, key, OpenSince(t0))
    requires e.now < t0 + cfg.timeout as real
    ensures OpenFrom(GetCircuit(Step(s, e, cfg).cache, key), t0) && TasksCarry(Step(s, e, cfg), key, OpenSince(t0))
  {
    hide TasksCarry;
    var c := GetCircuit(s.cache, e.key);
    match e
    case IsOpen(k, now) => TransitionCarries(s, k, OnIsOpen(c, now, cfg), key, OpenSince(t0));
    case Success(k, _) => TransitionCarries(s, k, OnSuccess(c, cfg), key, OpenSince(t0));
    case Failure(k, now) => TransitionCarries(s, k, OnFailure(c, now, cfg), key, OpenSince(t0));
  }

  lemma {:induction false} StaysOpen(
      s: Store, run: Run<Event>, cfg: Config, key: string, t0: Time, now: Time, later: Time)
    requires OpenFrom(GetCircuit(s.cache, key), t0) && TasksCarry(s, key, OpenSince(t0))
    requires LeftAlone(run, key) && Clocked(run, now, later) && later < t0 + cfg.timeout as real
    ensures OpenFrom(GetCircuit(After(s, run, cfg).cache, key), t0)
    ensures TasksCarry(After(s, run, cfg), key, OpenSince(t0))
  {
    match run
    case Start =>
    case Then(before, e) =>
      StaysOpen(s, before, cfg, key, t0, now, e.now);
      var u := After(s, before, cfg);
      if e.IsOpen? || e.Success? || e.Failure? {
        CallStaysOpen(u, e, cfg, key, t0);
      } else if e.Reset? {
        CarryMove(u.pending, Snapshot(e.key, FRESH), key, OpenSince(t0));
      } else {
        LandingCarries(u, e, cfg, key, OpenSince(t0));
      }
  }

  /** From when on a circuit that is not open since t0 lets traffic through, before the timeout after t0. */
  function YieldTime(c: Circuit, now: Time, cfg: Config): Time {
    if c.state == Open && c.trippedAt.Some? && c.trippedAt.value + cfg.timeout as real > now
    then c.trippedAt.value + cfg.timeout as real
    else now
  }

  lemma YieldsEarly(c: Circuit, t0: Time, now: Time, cfg: Config)
    requires !OpenFrom(c, t0) && now < t0 + cfg.timeout as real
    ensures !Rejects(c, YieldTime(c, now, cfg), cfg)
    ensures now <= YieldTime(c, now, cfg) < t0 + cfg.timeout as real
  {
  }

  /**
   A circuit that is open since t0 rejects traffic until the timeout, in every continuation without resets and reloads,
   if and only if every task under way for it carries a circuit that is open since then: the late write of an earlier
   heal, and nothing else, lets traffic through too early.
   */
  lemma TripLastsIffTasksOpen(s: Store, cfg: Config, key: string, t0: Time, now: Time)
    requires OpenFrom(GetCircuit(s.cache, key), t0) && now < t0 + cfg.timeout as real
    ensures RejectsThroughout(s, key, t0, now, cfg) <==> TasksCarry(s, key, OpenSince(t0))
  {
    if TasksCarry(s, key, OpenSince(t0)) {
      forall run: Run<Event>, later: Time |
          LeftAlone(run, key) && Clocked(run, now, later) && later < t0 + cfg.timeout as real
        ensures Rejects(GetCircuit(After(s, run, cfg).cache, key), later, cfg)
      {
        StaysOpen(s, run, cfg, key, t0, now, later);
      }
    } else {
      TasksCarryMeans(s, key, OpenSince(t0));
      var w :| UnderWay(s, w) && w.key == key && !OpenFrom(w.circuit, t0);
      var later := YieldTime(w.circuit, now, cfg);
      YieldsEarly(w.circuit, t0, now, cfg);
      LandingLands(s, w, later, cfg);
      LandingTouchesNothing(s, w, key, now, later);
      var u := After(s, Landing(s, w, later), cfg);
      assert GetCircuit(u.cache, key) == w.circuit;
    }
  }

  ghost function TrippedAt(t0: Time): Property {
    (c: Circuit) => c.state == Open && c.trippedAt == Some(t0)
  }

  lemma SoundTasksOpen(s: Store, key: string, t0: Time, cfg: Config, b: Bounds)
    requires Invariant(s, cfg, b) && b(key) <= t0
    ensures TasksCarry(s, key, OpenSince(t0)) <==> TasksCarry(s, key, TrippedAt(t0))
  {
    TasksCarryMeans(s, key, OpenSince(t0));
    TasksCarryMeans(s, key, TrippedAt(t0));
    forall w | UnderWay(s, w) && w.key == key
      ensures OpenSince(t0)(w.circuit) <==> TrippedAt(t0)(w.circuit)
    {
      assert Sound(w.circuit, cfg, b(w.key));
    }
  }

  /**
   In every run: a circuit that trips at t0 rejects traffic until the timeout, whatever is called and whatever lands, if
   and only if no write or load from before that trip is still under way for it.
   */
  lemma {:induction false} TripLastsIffNoOlderTask(run: Run<Event>, cfg: Config, b: Bounds, key: string, t0: Time)
    requires Positive(cfg) && cfg.enabled && FailuresBy(run, b) && 0.0 < t0 && b(key) <= t0
    requires CircuitOf(run, cfg, key).state != Open
    requires CircuitOf(run, cfg, key).failures + 1 >= cfg.failureThreshold
    ensures var s := After(EMPTY, run, cfg);
            RejectsThroughout(Step(s, Failure(key, t0), cfg), key, t0, t0, cfg) <==> TasksCarry(s, key, TrippedAt(t0))
  {
    var s := After(EMPTY, run, cfg);
    var u := Step(s, Failure(key, t0), cfg);
    InvariantAlways(EMPTY, run, cfg, b);
    hide After, RejectsThroughout, TasksCarry, Invariant;
    TripLastsIffTasksOpen(u, cfg, key, t0, t0);
    SoundTasksOpen(s, key, t0, cfg, b);
    TripAddsItself(s, OnFailure(GetCircuit(s.cache, key), t0, cfg), key, OpenSince(t0));
  }

  lemma TripAddsItself(s: Store, result: (Circuit, bool), key: string, p: Property)
    requires p(result.0)
    ensures TasksCarry(Transition(s, key, result), key, p) <==> TasksCarry(s, key, p)
  {
    var u := Transition(s, key, result);
    if TasksCarry(u, key, p) {
      assert forall w :: w in s.pending ==> w in u.pending;
    } else if TasksCarry(s, key, p) {
      TransitionCarries(s, key, result, key, p);
    }
  }

  lemma AfterRepeat(run: Run<Event>, e: Event, n: nat, cfg: Config)
    ensures After(EMPTY, Repeat(run, e, 0), cfg) == After(EMPTY, run, cfg)
    ensures n > 0 ==> After(EMPTY, Repeat(run, e, n), cfg) == Step(After(EMPTY, Repeat(run, e, n - 1), cfg), e, cfg)
  {
  }

  /** What n failures in a row make of a closed circuit that had none; no scheduled write is lost. */
  ghost predicate Failed(s: Store, u: Store, key: string, now: Time, n: int, cfg: Config) {
    var c := GetCircuit(u.cache, key);
    && s.pending <= u.pending
    && (if n < cfg.failureThreshold then c.state == Closed && c.failures == n
        else c.state == Open && c.trippedAt == Some(now))
  }

  lemma FailedOnce(s: Store, u: Store, key: string, now: Time, n: int, cfg: Config)
    requires cfg.enabled && Failed(s, u, key, now, n, cfg) && n < cfg.failureThreshold
    ensures Failed(s, Step(u, Failure(key, now), cfg), key, now, n + 1, cfg)
  {
  }

  lemma {:induction false} FailuresTrip(run: Run<Event>, cfg: Config, key: string, now: Time, n: nat)
    requires cfg.enabled && n <= cfg.failureThreshold
    requires Failed(After(EMPTY, run, cfg), After(EMPTY, run, cfg), key, now, 0, cfg)
    ensures Failed(After(EMPTY, run, cfg), After(EMPTY, Repeat(run, Failure(key, now), n), cfg), key, now, n, cfg)
  {
    hide *;
    AfterRepeat(run, Failure(key, now), n, cfg);
    if n > 0 {
      FailuresTrip(run, cfg, key, now, n - 1);
      var u := After(EMPTY, Repeat(run, Failure(key, now), n - 1), cfg);
      FailedOnce(After(EMPTY, run, cfg), u, key, now, n - 1, cfg);
    }
  }

  /** What n successes in a row make of a half-open circuit that had none. */
  ghost predicate Healed(u: Store, key: string, n: int, cfg: Config) {
    var c := GetCircuit(u.cache, key);
    if n < cfg.successThreshold then c.state == HalfOpen && c.successes == n
    else c.state == Closed && c.failures == 0 && Snapshot(key, c) in u.pending
  }

  lemma HealedOnce(u: Store, key: string, now: Time, n: int, cfg: Config)
    requires cfg.enabled && Healed(u, key, n, cfg) && n < cfg.successThreshold
    ensures Healed(Step(u, Success(key, now), cfg), key, n + 1, cfg)
  {
  }

  lemma {:induction false} SuccessesHeal(run: Run<Event>, cfg: Config, key: string, now: Time, n: nat)
    requires cfg.enabled && n <= cfg.successThreshold
    requires Healed(After(EMPTY, run, cfg), key, 0, cfg)
    ensures Healed(After(EMPTY, Repeat(run, Success(key, now), n), cfg), key, n, cfg)
  {
    hide *;
    AfterRepeat(run, Success(key, now), n, cfg);
    if n > 0 {
      SuccessesHeal(run, cfg, key, now, n - 1);
      HealedOnce(After(EMPTY, Repeat(run, Success(key, now), n - 1), cfg), key, now, n - 1, cfg);
    }
  }

  /** The circuit trips, heals, and trips again before the write of the heal has landed. */
  function Relapse(cfg: Config, key: string): Run<Event>
    requires Positive(cfg)
  {
    var healing := 1.0 + cfg.timeout as real;
    var tripped := Repeat(Start, Failure(key, 1.0), cfg.failureThreshold);
    var healed := Repeat(Then(tripped, IsOpen(key, healing)), Success(key, healing), cfg.successThreshold);
    Repeat(healed, Failure(key, healing + 1.0), cfg.failureThreshold)
  }

  lemma QuestionHalfOpens(run: Run<Event>, cfg: Config, key: string, now: Time)
    requires cfg.enabled && CircuitOf(run, cfg, key).state == Open && TimedOut(CircuitOf(run, cfg, key), now, cfg)
    ensures var c := CircuitOf(Then(run, IsOpen(key, now)), cfg, key); c.state == HalfOpen && c.successes == 0
  {
  }

  /** A circuit that heals and trips again leaves the closed snapshot behind. */
  lemma HealLeavesSnapshot(run: Run<Event>, cfg: Config, key: string, now: Time, t0: Time)
    requires Positive(cfg) && cfg.enabled
    requires CircuitOf(run, cfg, key).state == HalfOpen && CircuitOf(run, cfg, key).successes == 0
    ensures var again := Repeat(Repeat(run, Success(key, now), cfg.successThreshold),
                                Failure(key, t0), cfg.failureThreshold);
            && CircuitOf(again, cfg, key).state == Open && CircuitOf(again, cfg, key).trippedAt == Some(t0)
            && !TasksCarry(After(EMPTY, again, cfg), key, OpenSince(t0))
  {
    hide After;
    SuccessesHeal(run, cfg, key, now, cfg.successThreshold);
    var healed := Repeat(run, Success(key, now), cfg.successThreshold);
    FailuresTrip(healed, cfg, key, t0, cfg.failureThreshold);
    var stale := Snapshot(key, CircuitOf(healed, cfg, key));
    assert stale in After(EMPTY, Repeat(healed, Failure(key, t0), cfg.failureThreshold), cfg).pending;
  }

  /** So with every configuration a trip may end too early: the stale closed snapshot reopens the way. */
  lemma {:induction false} TripMayEndEarly(cfg: Config, key: string)
    requires Positive(cfg) && cfg.enabled
    ensures var s, t0 := After(EMPTY, Relapse(cfg, key), cfg), 1.0 + cfg.timeout as real + 1.0;
            && GetCircuit(s.cache, key).state == Open && GetCircuit(s.cache, key).trippedAt == Some(t0)
            && !RejectsThroughout(s, key, t0, t0, cfg)
  {
    assert After(EMPTY, Start, cfg) == EMPTY;
    hide After, RejectsThroughout, Repeat, TasksCarry;
    var healing := 1.0 + cfg.timeout as real;
    var tripped := Repeat(Start, Failure(key, 1.0), cfg.failureThreshold);
    FailuresTrip(Start, cfg, key, 1.0, cfg.failureThreshold);
    QuestionHalfOpens(tripped, cfg, key, healing);
    HealLeavesSnapshot(Then(tripped, IsOpen(key, healing)), cfg, key, healing, healing + 1.0);
    TripLastsIffTasksOpen(After(EMPTY, Relapse(cfg, key), cfg), cfg, key, healing + 1.0, healing + 1.0);
  }

  // ---------------------------------------------------------------------------
  // The trip condition
  // ---------------------------------------------------------------------------

  /** What an event records for key: 1 for a failure, -1 for a success, 0 for anything else. */
  function Outcome(e: Event, key: string): int {
    if e.Failure? && e.key == key then 1 else if e.Success? && e.key == key then -1 else 0
  }

  /** The outcomes recorded for key, in order. */
  function Recorded(run: Run<Event>, key: string): seq<int> {
    match run
    case Start => []
    case Then(before, e) =>
      var earlier := Recorded(before, key);
      if Outcome(e, key) != 0 then earlier + [Outcome(e, key)] else earlier
  }

  /** Failures minus successes in a block of outcomes. */
  function Balance(block: seq<int>): int {
    if block == [] then 0 else Balance(block[..|block| - 1]) + block[|block| - 1]
  }

  /** The decaying counter: it follows the outcomes but never goes below zero. */
  function Counter(outcomes: seq<int>): (n: nat) {
    if outcomes == [] then 0
    else
      var n := Counter(outcomes[..|outcomes| - 1]) + outcomes[|outcomes| - 1];
      if n < 0 then 0 else n
  }

  /** The counter is the largest balance of any block that ends now, the empty block included. */
  lemma {:induction false} CounterIsMaximalBalance(outcomes: seq<int>)
    ensures forall i :: 0 <= i <= |outcomes| ==> Balance(outcomes[i..]) <= Counter(outcomes)
    ensures exists i :: 0 <= i <= |outcomes| && Balance(outcomes[i..]) == Counter(outcomes)
  {
    if outcomes == [] {
      assert outcomes[0..] == [];
    } else {
      var n := |outcomes| - 1;
      var init, last := outcomes[..n], outcomes[n];
      CounterIsMaximalBalance(init);
      forall i | 0 <= i <= |outcomes|
        ensures Balance(outcomes[i..]) <= Counter(outcomes)
        ensures i <= n ==> Balance(outcomes[i..]) == Balance(init[i..]) + last
      {
        if i <= n {
          var block := outcomes[i..];
          assert block[..|block| - 1] == init[i..] && block[|block| - 1] == last;
        } else {
          assert outcomes[i..] == [];
        }
      }
      var i :| 0 <= i <= |init| && Balance(init[i..]) == Counter(init);
      if Counter(init) + last < 0 {
        assert outcomes[|outcomes|..] == [];
        assert Balance(outcomes[|outcomes|..]) == Counter(outcomes);
      } else {
        assert Balance(outcomes[i..]) == Counter(outcomes);
      }
    }
  }

  /** The circuit of key was open at some point of the run. */
  ghost predicate EverOpen(run: Run<Event>, cfg: Config, key: string) {
    match run
    case Start => false
    case Then(before, _) => EverOpen(before, cfg, key) || CircuitOf(run, cfg, key).state == Open
  }

  /** The outcomes recorded for key since its circuit was last replaced or dropped. */
  function SinceDrop(run: Run<Event>, cfg: Config, key: string): seq<int> {
    match run
    case Start => []
    case Then(before, e) =>
      if Drops(After(EMPTY, before, cfg), e, key) then []
      else if Outcome(e, key) != 0 then SinceDrop(before, cfg, key) + [Outcome(e, key)]
      else SinceDrop(before, cfg, key)
  }

  /** Calls and the landing of their writes; no resets and no reloads. */
  ghost predicate CallsAndWrites(run: Run<Event>) {
    match run
    case Start => true
    case Then(before, e) => CallsAndWrites(before) && !e.Reset? && !e.BeginReload? && !e.LoadEntry?
  }

  ghost function IsFresh(resets: bool): Property {
    c => resets && c == FRESH
  }

  /** Tasks and row for key carry the fresh circuit, and without resets there are none. */
  ghost predicate OnlyFreshFor(s: Store, key: string, resets: bool) {
    TasksCarry(s, key, IsFresh(resets)) && (key in s.table ==> IsFresh(resets)(s.table[key]))
  }

  function Max0(n: int): nat {
    if n < 0 then 0 else n
  }

  lemma CounterAppend(outcomes: seq<int>, d: int)
    ensures Counter(outcomes + [d]) == Max0(Counter(outcomes) + d)
  {
    assert (outcomes + [d])[..|outcomes|] == outcomes;
  }

  /** A row that is committed for key was carried by a task. */
  lemma CommittedRowFresh(s: Store, w: Snapshot, key: string, resets: bool)
    requires OnlyFreshFor(s, key, resets) && w in s.pending
    ensures OnlyFreshFor(Commit(s, w), key, resets)
  {
    CommitCarries(s, w, key, IsFresh(resets));
    CarryMove(s.pending, w, key, IsFresh(resets));
    hide TasksCarry, Carry;
  }

  lemma ReloadKeepsFresh(s: Store, now: Time, cfg: Config, key: string)
    requires OnlyFreshFor(s, key, true)
    ensures OnlyFreshFor(Step(s, BeginReload(now), cfg), key, true)
  {
  }

  lemma TaskKeepsFresh(s: Store, e: Event, cfg: Config, key: string, resets: bool)
    requires !e.IsOpen? && !e.Success? && !e.Failure?
    requires resets || !(e.Reset? || e.BeginReload? || e.LoadEntry?)
    requires OnlyFreshFor(s, key, resets)
    ensures OnlyFreshFor(Step(s, e, cfg), key, resets)
    ensures GetCircuit(Step(s, e, cfg).cache, key) == if Drops(s, e, key) then FRESH else GetCircuit(s.cache, key)
    ensures !resets ==> !Drops(s, e, key)
  {
    hide Carry;
    match e
    case Reset(k, _) => CarryMove(s.pending, Snapshot(k, FRESH), key, IsFresh(resets));
    case BeginReload(now) => ReloadKeepsFresh(s, now, cfg, key);
    case CommitRow(w, _) =>
      if w in s.pending {
        CommittedRowFresh(s, w, key, resets);
      }
    case _ =>
      LandingCarries(s, e, cfg, key, IsFresh(resets));
  }

  /** A step of a system in which the circuit of key is closed and tasks for it carry only the fresh circuit. */
  lemma StepWhileClosed(s: Store, e: Event, cfg: Config, key: string, resets: bool)
    requires Positive(cfg) && cfg.enabled
    requires resets || !(e.Reset? || e.BeginReload? || e.LoadEntry?)
    requires OnlyFreshFor(s, key, resets)
    requires var c := GetCircuit(s.cache, key); c.state == Closed && 0 <= c.failures < cfg.failureThreshold
    ensures var c, u := GetCircuit(s.cache, key), Step(s, e, cfg);
            var after := GetCircuit(u.cache, key);
            var n := if Drops(s, e, key) then 0 else Max0(c.failures + Outcome(e, key));
            if n >= cfg.failureThreshold then after.state == Open
            else after.state == Closed && after.failures == n && OnlyFreshFor(u, key, resets)
    ensures !resets ==> !Drops(s, e, key)
  {
    hide TasksCarry;
    match e {
      case IsOpen(k, now) => TransitionCarries(s, k, OnIsOpen(GetCircuit(s.cache, k), now, cfg), key, IsFresh(resets));
      case Success(k, _) => TransitionCarries(s, k, OnSuccess(GetCircuit(s.cache, k), cfg), key, IsFresh(resets));
      case Failure(k, now) =>
        var result := OnFailure(GetCircuit(s.cache, k), now, cfg);
        if k != key || !result.1 {
          TransitionCarries(s, k, result, key, IsFresh(resets));
        }
      case _ => TaskKeepsFresh(s, e, cfg, key, resets);
    }
  }

  /**
   Until it first opens, the circuit is closed and counts the outcomes since it was last replaced or dropped. Without
   resets and reloads that never happens, and nothing is written for it.
   */
  lemma {:induction false} ClosedCounts(run: Run<Event>, cfg: Config, key: string, resets: bool)
    requires Positive(cfg) && cfg.enabled && (resets || CallsAndWrites(run)) && !EverOpen(run, cfg, key)
    ensures CircuitOf(run, cfg, key).state == Closed
    ensures CircuitOf(run, cfg, key).failures == Counter(SinceDrop(run, cfg, key)) < cfg.failureThreshold
    ensures OnlyFreshFor(After(EMPTY, run, cfg), key, resets)
    ensures !resets ==> SinceDrop(run, cfg, key) == Recorded(run, key)
  {
    match run
    case Start =>
    case Then(before, e) =>
      ClosedCounts(before, cfg, key, resets);
      hide Step, OnlyFreshFor, Counter, Drops;
      CounterOfNothing();
      StepWhileClosed(After(EMPTY, before, cfg), e, cfg, key, resets);
      CounterAppend(SinceDrop(before, cfg, key), Outcome(e, key));
  }

  lemma CounterOfNothing()
    ensures Counter([]) == 0
  {
  }

  /** Some contiguous block of the outcomes has at least threshold more failures than successes. */
  ghost predicate BadBlock(outcomes: seq<int>, threshold: int) {
    exists i, j :: 0 <= i <= j <= |outcomes| && Balance(outcomes[i..j]) >= threshold
  }

  lemma BadBlockGrows(outcomes: seq<int>, d: int, threshold: int)
    requires threshold >= 1
    ensures BadBlock(outcomes + [d], threshold)
       <==> BadBlock(outcomes, threshold) || Counter(outcomes + [d]) >= threshold
  {
    var all := outcomes + [d];
    CounterIsMaximalBalance(all);
    if BadBlock(all, threshold) {
      var i, j :| 0 <= i <= j <= |all| && Balance(all[i..j]) >= threshold;
      if j < |all| {
        assert all[i..j] == outcomes[i..j];
      } else {
        assert all[i..j] == all[i..];
      }
    }
    if BadBlock(outcomes, threshold) {
      var i, j :| 0 <= i <= j <= |outcomes| && Balance(outcomes[i..j]) >= threshold;
      assert all[i..j] == outcomes[i..j];
    }
    if Counter(all) >= threshold {
      BadCounterIsBadBlock(all, threshold);
    }
  }

  /** At some point of the run the outcomes since the last drop had a bad block. */
  ghost predicate EverBad(run: Run<Event>, cfg: Config, key: string) {
    match run
    case Start => false
    case Then(before, _) =>
      EverBad(before, cfg, key) || BadBlock(SinceDrop(run, cfg, key), cfg.failureThreshold)
  }

  /** If there was no bad block before the step, there is one after it exactly if the counter reaches the threshold. */
  lemma {:induction false} BadBlockNow(before: Run<Event>, e: Event, cfg: Config, key: string)
    requires Positive(cfg) && !EverBad(before, cfg, key)
    ensures BadBlock(SinceDrop(Then(before, e), cfg, key), cfg.failureThreshold)
       <==> !Drops(After(EMPTY, before, cfg), e, key)
            && Max0(Counter(SinceDrop(before, cfg, key)) + Outcome(e, key)) >= cfg.failureThreshold
  {
    hide After, Drops, Counter, BadBlock;
    NoBadBlockInNothing(cfg.failureThreshold);
    BadBlockGrows(SinceDrop(before, cfg, key), Outcome(e, key), cfg.failureThreshold);
    CounterAppend(SinceDrop(before, cfg, key), Outcome(e, key));
    if Counter(SinceDrop(before, cfg, key)) >= cfg.failureThreshold {
      BadCounterIsBadBlock(SinceDrop(before, cfg, key), cfg.failureThreshold);
    }
  }

  lemma OpensNow(before: Run<Event>, e: Event, cfg: Config, key: string)
    requires Positive(cfg) && cfg.enabled && !EverOpen(before, cfg, key) && !EverBad(before, cfg, key)
    ensures CircuitOf(Then(before, e), cfg, key).state == Open
       <==> BadBlock(SinceDrop(Then(before, e), cfg, key), cfg.failureThreshold)
  {
    hide *;
    BadBlockNow(before, e, cfg, key);
    ClosedCounts(before, cfg, key, true);
    CircuitAfter(before, e, cfg, key);
    StepWhileClosed(After(EMPTY, before, cfg), e, cfg, key, true);
  }

  lemma CircuitAfter(before: Run<Event>, e: Event, cfg: Config, key: string)
    ensures CircuitOf(before, cfg, key) == GetCircuit(After(EMPTY, before, cfg).cache, key)
    ensures CircuitOf(Then(before, e), cfg, key) == GetCircuit(Step(After(EMPTY, before, cfg), e, cfg).cache, key)
  {
  }

  /**
   The trip condition in closed form, for every run: from a fresh start the circuit has opened if and only if some
   contiguous block of outcomes, with no reset or reload of its circuit in between, had failures - successes >= the
   threshold, however the writes of all circuits landed.
   */
  lemma {:induction false} OpensExactlyOnBadBlock(run: Run<Event>, cfg: Config, key: string)
    requires Positive(cfg) && cfg.enabled
    ensures EverOpen(run, cfg, key) <==> EverBad(run, cfg, key)
  {
    match run
    case Start =>
    case Then(before, e) =>
      OpensExactlyOnBadBlock(before, cfg, key);
      if !EverOpen(before, cfg, key) {
        OpensNow(before, e, cfg, key);
      }
      hide CircuitOf, BadBlock, SinceDrop;
  }

  lemma BadCounterIsBadBlock(outcomes: seq<int>, threshold: int)
    requires Counter(outcomes) >= threshold
    ensures BadBlock(outcomes, threshold)
  {
    CounterIsMaximalBalance(outcomes);
    var i :| 0 <= i <= |outcomes| && Balance(outcomes[i..]) == Counter(outcomes);
    assert outcomes[i..|outcomes|] == outcomes[i..];
  }

  /** Without resets and reloads the blocks are those of all outcomes. */
  lemma {:induction false} OpensExactlyOnBadBlockOfAll(run: Run<Event>, cfg: Config, key: string)
    requires Positive(cfg) && cfg.enabled && CallsAndWrites(run)
    ensures EverOpen(run, cfg, key) <==> BadBlock(Recorded(run, key), cfg.failureThreshold)
  {
    OpensExactlyOnBadBlock(run, cfg, key);
    match run
    case Start => NoBadBlockInNothing(cfg.failureThreshold);
    case Then(before, e) =>
      OpensExactlyOnBadBlockOfAll(before, cfg, key);
      OpensExactlyOnBadBlock(before, cfg, key);
      hide Counter, BadBlock, Step;
      BadBlockGrows(Recorded(before, key), Outcome(e, key), cfg.failureThreshold);
      if !EverOpen(before, cfg, key) {
        ClosedCounts(before, cfg, key, false);
        StepWhileClosed(After(EMPTY, before, cfg), e, cfg, key, false);
      }
  }

  lemma NoBadBlockInNothing(threshold: int)
    requires threshold >= 1
    ensures !BadBlock([], threshold)
  {
    var none: seq<int> := [];
    forall i, j | 0 <= i <= j <= |none|
      ensures Balance(none[i..j]) < threshold
    {
      assert none[i..j] == [];
    }
  }
}
