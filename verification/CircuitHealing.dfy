/** How a half-open circuit heals, and how the writes still under way for it can undo that. */
module CircuitHealing {
  import opened CircuitBreaker
  import opened CircuitTasks
  import opened Runs
  import opened Timeline

  /** No failure of key, nobody resets it and no reload begins; everything else may happen, late writes included. */
  ghost predicate OnlySuccesses(run: Run<Event>, key: string) {
    match run
    case Start => true
    case Then(before, e) =>
      && OnlySuccesses(before, key)
      && !((e.Failure? || e.Reset?) && e.key == key) && !e.BeginReload?
  }

  function Successes(run: Run<Event>, key: string): nat {
    match run
    case Start => 0
    case Then(before, e) => Successes(before, key) + (if e.Success? && e.key == key then 1 else 0)
  }

  /** What a circuit should be after n successes in half-open. */
  predicate Healed(c: Circuit, n: int, cfg: Config) {
    if n < cfg.successThreshold then c.state == HalfOpen && c.successes == n
    else c.state == Closed && c.failures == 0
  }

  /** However the run goes on, the circuit counts every success and closes with the successThreshold-th. */
  ghost predicate HealsThroughout(s: Store, key: string, now: Time, cfg: Config) {
    forall run: Run<Event>, later: Time :: OnlySuccesses(run, key) && Clocked(run, now, later)
      ==> Healed(GetCircuit(After(s, run, cfg).cache, key),
                 GetCircuit(s.cache, key).successes + Successes(run, key), cfg)
  }

  /** No task carries a circuit of the key. */
  ghost function Nothing(): Property {
    (c: Circuit) => false
  }

  /** After n successes: nothing before the circuit has closed, and then only healed circuits. */
  ghost function HealedOnly(n: int, cfg: Config): Property {
    (c: Circuit) => n >= cfg.successThreshold && Healed(c, n, cfg)
  }

  lemma OneMoreSuccess(s: Store, key: string, n: int, cfg: Config)
    requires TasksCarry(s, key, HealedOnly(n, cfg))
    ensures TasksCarry(s, key, HealedOnly(n + 1, cfg))
  {
    TasksCarryMeans(s, key, HealedOnly(n, cfg));
    TasksCarryMeans(s, key, HealedOnly(n + 1, cfg));
  }

  /** The circuit and the tasks for it are as they should be after n successes. */
  ghost predicate InStep(s: Store, key: string, n: int, cfg: Config) {
    Healed(GetCircuit(s.cache, key), n, cfg) && TasksCarry(s, key, HealedOnly(n, cfg))
  }

  /** A call that is no failure of key keeps the circuit in step with the successes. */
  lemma CallHeals(s: Store, e: Event, key: string, n: int, cfg: Config)
    requires cfg.enabled && (e.IsOpen? || e.Success? || (e.Failure? && e.key != key))
    requires InStep(s, key, n, cfg)
    ensures InStep(Step(s, e, cfg), key, if e.Success? && e.key == key then n + 1 else n, cfg)
  {
    hide TasksCarry, GetCircuit;
    var c, m := GetCircuit(s.cache, e.key), if e.Success? && e.key == key then n + 1 else n;
    OneMoreSuccess(s, key, n, cfg);
    match e
    case IsOpen(k, now) => TransitionCarries(s, k, OnIsOpen(c, now, cfg), key, HealedOnly(m, cfg));
    case Success(k, _) => TransitionCarries(s, k, OnSuccess(c, cfg), key, HealedOnly(m, cfg));
    case Failure(k, now) => TransitionCarries(s, k, OnFailure(c, now, cfg), key, HealedOnly(m, cfg));
  }

  lemma StepHeals(s: Store, e: Event, key: string, n: int, cfg: Config)
    requires cfg.enabled && !((e.Failure? || e.Reset?) && e.key == key) && !e.BeginReload?
    requires InStep(s, key, n, cfg)
    ensures InStep(Step(s, e, cfg), key, if e.Success? && e.key == key then n + 1 else n, cfg)
  {
    if e.IsOpen? || e.Success? || e.Failure? {
      CallHeals(s, e, key, n, cfg);
    } else if e.Reset? {
      CarryMove(s.pending, Snapshot(e.key, FRESH), key, HealedOnly(n, cfg));
    } else {
      LandingCarries(s, e, cfg, key, HealedOnly(n, cfg));
    }
  }

  lemma {:induction false} HealsAlong(s: Store, run: Run<Event>, key: string, n: int, cfg: Config)
    requires cfg.enabled && OnlySuccesses(run, key) && InStep(s, key, n, cfg)
    ensures InStep(After(s, run, cfg), key, n + Successes(run, key), cfg)
  {
    hide InStep, Step;
    match run
    case Start =>
    case Then(before, e) =>
      HealsAlong(s, before, key, n, cfg);
      StepHeals(After(s, before, cfg), e, key, n + Successes(before, key), cfg);
  }

  lemma NothingMeansHealedOnly(s: Store, key: string, n: int, cfg: Config)
    requires n < cfg.successThreshold
    ensures TasksCarry(s, key, Nothing()) <==> TasksCarry(s, key, HealedOnly(n, cfg))
  {
    TasksCarryMeans(s, key, Nothing());
    TasksCarryMeans(s, key, HealedOnly(n, cfg));
  }

  /** A landing is part of a run in which only successes are recorded. */
  lemma LandingOnlySuccesses(s: Store, w: Snapshot, key: string, now: Time)
    ensures OnlySuccesses(Landing(s, w, now), key) && Successes(Landing(s, w, now), key) == 0
  {
    var run := Landing(s, w, now);
    assert run.before.Then? ==> OnlySuccesses(run.before.before, key) && Successes(run.before.before, key) == 0;
    assert OnlySuccesses(run.before, key) && Successes(run.before, key) == 0;
  }

  lemma {:induction false} FollowedReaches(s: Store, run: Run<Event>, more: Run<Event>, cfg: Config)
    ensures After(s, Followed(run, more), cfg) == After(After(s, run, cfg), more, cfg)
  {
    match more
    case Start =>
    case Then(before, e) => FollowedReaches(s, run, before, cfg);
  }

  lemma {:induction false} FollowedHeals(run: Run<Event>, more: Run<Event>, key: string, from: Time, to: Time)
    requires OnlySuccesses(run, key) && OnlySuccesses(more, key) && Clocked(run, from, to) && Clocked(more, to, to)
    ensures OnlySuccesses(Followed(run, more), key) && Clocked(Followed(run, more), from, to)
    ensures Successes(Followed(run, more), key) == Successes(run, key) + Successes(more, key)
  {
    match more
    case Start =>
    case Then(before, e) =>
      AtLeast(before, to, e.now);
      FollowedHeals(run, before, key, from, to);
  }

  lemma {:induction false} AtLeast(run: Run<Event>, from: Time, to: Time)
    requires Clocked(run, from, to)
    ensures from <= to
  {
    match run
    case Start =>
    case Then(before, e) => AtLeast(before, from, e.now);
  }

  /** A landing that does not agree with the successes so far breaks the healing. */
  lemma LandingBreaks(s: Store, run: Run<Event>, w: Snapshot, now: Time, cfg: Config)
    requires OnlySuccesses(run, w.key) && Clocked(run, now, now) && UnderWay(After(s, run, cfg), w)
    requires !Healed(w.circuit, GetCircuit(s.cache, w.key).successes + Successes(run, w.key), cfg)
    ensures !HealsThroughout(s, w.key, now, cfg)
  {
    hide *;
    var u := After(s, run, cfg);
    var landing := Landing(u, w, now);
    LandingLands(u, w, now, cfg);
    LandingTouchesNothing(u, w, w.key, now, now);
    LandingOnlySuccesses(u, w, w.key, now);
    FollowedHeals(run, landing, w.key, now, now);
    FollowedReaches(s, run, landing, cfg);
    OneRunRefutes(s, Followed(run, landing), w.key, now, cfg);
  }

  lemma OneRunRefutes(s: Store, run: Run<Event>, key: string, now: Time, cfg: Config)
    requires OnlySuccesses(run, key) && Clocked(run, now, now)
    requires !Healed(GetCircuit(After(s, run, cfg).cache, key),
                     GetCircuit(s.cache, key).successes + Successes(run, key), cfg)
    ensures !HealsThroughout(s, key, now, cfg)
  {
  }

  lemma StaysUnderWay(s: Store, w: Snapshot, now: Time, cfg: Config)
    requires UnderWay(s, w)
    ensures UnderWay(After(s, Then(Start, Success(w.key, now)), cfg), w)
    ensures OnlySuccesses(Start, w.key) && Clocked(Start, now, now) && Successes(Start, w.key) == 0
    ensures OnlySuccesses(Then(Start, Success(w.key, now)), w.key)
    ensures Clocked(Then(Start, Success(w.key, now)), now, now)
    ensures Successes(Then(Start, Success(w.key, now)), w.key) == 1
    ensures After(s, Start, cfg) == s
  {
    assert After(s, Start, cfg) == s && OnlySuccesses(Start, w.key) && Clocked(Start, now, now);
  }

  lemma NothingUnderWayHeals(s: Store, key: string, now: Time, cfg: Config)
    requires cfg.enabled && TasksCarry(s, key, Nothing())
    requires var c := GetCircuit(s.cache, key); c.state == HalfOpen && c.successes < cfg.successThreshold
    ensures HealsThroughout(s, key, now, cfg)
  {
    var n := GetCircuit(s.cache, key).successes;
    NothingMeansHealedOnly(s, key, n, cfg);
    assert InStep(s, key, n, cfg);
    forall run: Run<Event>, later: Time | OnlySuccesses(run, key) && Clocked(run, now, later)
      ensures Healed(GetCircuit(After(s, run, cfg).cache, key), n + Successes(run, key), cfg)
    {
      HealsAlong(s, run, key, n, cfg);
    }
  }

  /** What is under way lands at once if it differs from the circuit, and else after one success. */
  lemma UnderWayBreaks(s: Store, w: Snapshot, now: Time, cfg: Config)
    requires UnderWay(s, w) && GetCircuit(s.cache, w.key).successes < cfg.successThreshold
    ensures !HealsThroughout(s, w.key, now, cfg)
  {
    hide HealsThroughout, UnderWay, After, OnlySuccesses, Clocked, Successes;
    StaysUnderWay(s, w, now, cfg);
    if Healed(w.circuit, GetCircuit(s.cache, w.key).successes, cfg) {
      LandingBreaks(s, Then(Start, Success(w.key, now)), w, now, cfg);
    } else {
      LandingBreaks(s, Start, w, now, cfg);
    }
  }

  /**
   A half-open circuit closes exactly with the successThreshold-th success and stays closed, in every continuation
   without failures, resets and reloads, if and only if no write or load is under way for it when it starts to heal. A
   snapshot that lands between two successes takes the count back, and one that lands after the last reopens the trial.
   */
  lemma HealsIffNothingUnderWay(s: Store, key: string, now: Time, cfg: Config)
    requires cfg.enabled
    requires var c := GetCircuit(s.cache, key); c.state == HalfOpen && c.successes < cfg.successThreshold
    ensures HealsThroughout(s, key, now, cfg) <==> TasksCarry(s, key, Nothing())
  {
    hide HealsThroughout, TasksCarry, UnderWay;
    if TasksCarry(s, key, Nothing()) {
      NothingUnderWayHeals(s, key, now, cfg);
    } else {
      TasksCarryMeans(s, key, Nothing());
      var w :| UnderWay(s, w) && w.key == key;
      UnderWayBreaks(s, w, now, cfg);
    }
  }

  /**
   The question that half-opens a circuit schedules such a write itself. So no trial is sure to close its circuit with
   the configured number of successes.
   */
  lemma HalfOpeningMayNotHeal(s: Store, key: string, now: Time, cfg: Config)
    requires cfg.enabled && cfg.successThreshold >= 1
    requires var c := GetCircuit(s.cache, key); c.state == Open && TimedOut(c, now, cfg)
    ensures var u := Step(s, IsOpen(key, now), cfg);
            GetCircuit(u.cache, key).state == HalfOpen && !HealsThroughout(u, key, now, cfg)
  {
    var u := Step(s, IsOpen(key, now), cfg);
    var w := Snapshot(key, GetCircuit(u.cache, key));
    assert w in u.pending && UnderWay(u, w);
    hide HealsThroughout;
    TasksCarryMeans(u, key, Nothing());
    HealsIffNothingUnderWay(u, key, now, cfg);
  }
}
