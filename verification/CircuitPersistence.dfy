/** Which changes of a circuit are written, and what a reload brings back. */
module CircuitPersistence {
  import opened CircuitBreaker
  import opened Outcomes
  import opened Runs
  import opened Timeline

  /**
   A call schedules a write exactly if it changes the state of its circuit, and what it schedules is the circuit as it
   is then. It touches no other circuit, and neither table nor tasks under way.
   */
  lemma StateChangesArePersisted(s: Store, e: Event, cfg: Config)
    requires e.IsOpen? || e.Success? || e.Failure?
    ensures var u := Step(s, e, cfg);
            var before, after := GetCircuit(s.cache, e.key), GetCircuit(u.cache, e.key);
            && u.pending == (if before.state != after.state then s.pending + multiset{Snapshot(e.key, after)}
                             else s.pending)
            && u.table == s.table && u.committed == s.committed && u.reading == s.reading && u.loading == s.loading
            && forall k :: k != e.key ==> GetCircuit(u.cache, k) == GetCircuit(s.cache, k)
  {
  }

  /** A failure opens a circuit exactly if it was not open and the count reaches the threshold with it. */
  lemma TripsAtThreshold(s: Store, cfg: Config, key: string, now: Time)
    requires cfg.enabled && GetCircuit(s.cache, key).state != Open
    ensures var before, after := GetCircuit(s.cache, key), GetCircuit(Step(s, Failure(key, now), cfg).cache, key);
            && after.failures == before.failures + 1 && after.lastFailureTime == Some(now)
            && (after.state == Open <==> before.failures + 1 >= cfg.failureThreshold)
            && (if after.state == Open then after.trippedAt == Some(now)
                else after.state == before.state && after.trippedAt == before.trippedAt)
  {
  }

  // ---------------------------------------------------------------------------
  // From the trip to the table and back
  // ---------------------------------------------------------------------------

  ghost predicate NotCommitted(run: Run<Event>, w: Snapshot) {
    match run
    case Start => true
    case Then(before, e) => NotCommitted(before, w) && !(e.CommitRow? && e.write == w)
  }

  ghost predicate NoCommitOf(run: Run<Event>, key: string) {
    match run
    case Start => true
    case Then(before, e) => NoCommitOf(before, key) && !(e.CommitRow? && e.write.key == key)
  }

  lemma StepKeepsPending(s: Store, e: Event, w: Snapshot, cfg: Config)
    requires w in s.pending && !(e.CommitRow? && e.write == w)
    ensures w in Step(s, e, cfg).pending
  {
  }

  lemma StepKeepsRow(s: Store, e: Event, key: string, cfg: Config)
    requires key in s.table && !(e.CommitRow? && e.write.key == key)
    ensures key in Step(s, e, cfg).table && Step(s, e, cfg).table[key] == s.table[key]
  {
  }

  /** A scheduled write is not forgotten. */
  lemma {:induction false} PendingUntilCommitted(s: Store, run: Run<Event>, w: Snapshot, cfg: Config)
    requires w in s.pending && NotCommitted(run, w)
    ensures w in After(s, run, cfg).pending
  {
    match run
    case Start =>
    case Then(before, e) =>
      PendingUntilCommitted(s, before, w, cfg);
      hide Step;
      StepKeepsPending(After(s, before, cfg), e, w, cfg);
  }

  lemma CommitReachesTable(s: Store, w: Snapshot, now: Time, cfg: Config)
    requires w in s.pending
    ensures var u := Step(s, CommitRow(w, now), cfg);
            && w.key in u.table && u.table[w.key] == w.circuit
            && forall k :: k != w.key ==>
                 (k in u.table <==> k in s.table) && (k in u.table ==> u.table[k] == s.table[k])
  {
  }

  /** A row stays as it is until the next commit for its key. */
  lemma {:induction false} RowStays(s: Store, run: Run<Event>, key: string, cfg: Config)
    requires key in s.table && NoCommitOf(run, key)
    ensures key in After(s, run, cfg).table && After(s, run, cfg).table[key] == s.table[key]
  {
    match run
    case Start =>
    case Then(before, e) =>
      RowStays(s, before, key, cfg);
      hide Step;
      StepKeepsRow(After(s, before, cfg), e, key, cfg);
  }

  /** The cached circuits after a reload that nothing disturbs has put back the row of key. */
  function Reloaded(s: Store, key: string, now: Time, cfg: Config): Store
    requires key in s.table
  {
    var read := Step(Step(s, BeginReload(now), cfg), ReadRows(now), cfg);
    Step(read, LoadEntry(Snapshot(key, s.table[key]), now), cfg)
  }

  lemma ReloadRestoresRow(s: Store, key: string, now: Time, cfg: Config)
    requires key in s.table
    ensures GetCircuit(Step(s, BeginReload(now), cfg).cache, key) == FRESH
    ensures GetCircuit(Reloaded(s, key, now, cfg).cache, key) == s.table[key]
  {
    assert Snapshot(key, s.table[key]) in Rows(s.table);
  }

  /**
   A trip survives reloads once it is written: whatever happens between the trip and the commit of its write, and after
   that as long as no other write of the circuit is committed, a reload puts back an open circuit with the time of the
   trip.
   */
  lemma TripSurvivesReload(
      s: Store, between: Run<Event>, more: Run<Event>, cfg: Config, key: string, t0: Time, now: Time, later: Time)
    requires cfg.enabled && GetCircuit(s.cache, key).state != Open
    requires GetCircuit(s.cache, key).failures + 1 >= cfg.failureThreshold
    requires var w := Snapshot(key, GetCircuit(Step(s, Failure(key, t0), cfg).cache, key)); NotCommitted(between, w)
    requires NoCommitOf(more, key)
    ensures var tripped := Step(s, Failure(key, t0), cfg);
            var w := Snapshot(key, GetCircuit(tripped.cache, key));
            var u := After(Step(After(tripped, between, cfg), CommitRow(w, now), cfg), more, cfg);
            && key in u.table
            && var c := GetCircuit(Reloaded(u, key, later, cfg).cache, key); c.state == Open && c.trippedAt == Some(t0)
  {
    var tripped := Step(s, Failure(key, t0), cfg);
    var w := Snapshot(key, GetCircuit(tripped.cache, key));
    TripsAtThreshold(s, cfg, key, t0);
    StateChangesArePersisted(s, Failure(key, t0), cfg);
    hide Step, After, GetCircuit;
    PendingUntilCommitted(tripped, between, w, cfg);
    var v := After(tripped, between, cfg);
    CommitReachesTable(v, w, now, cfg);
    RowStays(Step(v, CommitRow(w, now), cfg), more, key, cfg);
    ReloadRestoresRow(After(Step(v, CommitRow(w, now), cfg), more, cfg), key, later, cfg);
  }

  // ---------------------------------------------------------------------------
  // Calls in plain terms
  // ---------------------------------------------------------------------------

  /** A disabled breaker leaves everything as it is. */
  lemma DisabledDoesNothing(s: Store, e: Event, cfg: Config)
    requires !cfg.enabled && (e.IsOpen? || e.Success? || e.Failure?)
    ensures Step(s, e, cfg) == s
  {
  }

  /** A success counts in half-open, takes a failure back when closed, and does nothing when open. */
  lemma SuccessCounts(s: Store, cfg: Config, key: string, now: Time)
    requires cfg.enabled
    ensures var before, after := GetCircuit(s.cache, key), GetCircuit(Step(s, Success(key, now), cfg).cache, key);
            && after.lastFailureTime == before.lastFailureTime && after.trippedAt == before.trippedAt
            && (before.state == Open ==> after == before)
            && (before.state == Closed ==>
                  && after.state == Closed && after.successes == before.successes
                  && after.failures == if before.failures > 0 then before.failures - 1 else before.failures)
            && (before.state == HalfOpen ==>
                  && after.successes == before.successes + 1
                  && (after.state == Closed <==> after.successes >= cfg.successThreshold)
                  && (after.state == HalfOpen <==> after.successes < cfg.successThreshold)
                  && after.failures == if after.state == Closed then 0 else before.failures)
  {
  }

  /** A question changes an open circuit whose timeout is over, and nothing else. */
  lemma QuestionHalfOpens(s: Store, cfg: Config, key: string, now: Time)
    requires cfg.enabled
    ensures var before, after := GetCircuit(s.cache, key), GetCircuit(Step(s, IsOpen(key, now), cfg).cache, key);
            var over := before.trippedAt.Some? && before.trippedAt.value != 0.0
                        && before.trippedAt.value + cfg.timeout as real <= now;
            && (before.state == Open && over ==>
                  after == Circuit(HalfOpen, before.failures, 0, before.lastFailureTime, before.trippedAt))
            && (before.state != Open || !over ==> after == before)
            && (Rejects(before, now, cfg) <==> before.state == Open && !over)
  {
  }

  // ---------------------------------------------------------------------------
  // Every task is used once
  // ---------------------------------------------------------------------------

  /** How often a step schedules the write w. */
  function Schedules(s: Store, e: Event, w: Snapshot, cfg: Config): nat {
    match e
    case Reset(key, _) => if w == Snapshot(key, Circuit(Closed, 0, 0, None, None)) then 1 else 0
    case CommitRow(_, _) => 0
    case ReplaceEntry(_, _) => 0
    case BeginReload(_) => 0
    case ReadRows(_) => 0
    case LoadEntry(_, _) => 0
    case _ =>
      var after := GetCircuit(Step(s, e, cfg).cache, e.key);
      if GetCircuit(s.cache, e.key).state != after.state && w == Snapshot(e.key, after) then 1 else 0
  }

  function ScheduledWrites(s: Store, run: Run<Event>, w: Snapshot, cfg: Config): nat {
    match run
    case Start => 0
    case Then(before, e) => ScheduledWrites(s, before, w, cfg) + Schedules(After(s, before, cfg), e, w, cfg)
  }

  function Commits(s: Store, run: Run<Event>, w: Snapshot, cfg: Config): nat {
    match run
    case Start => 0
    case Then(before, e) =>
      Commits(s, before, w, cfg) + (if e.CommitRow? && e.write == w && w in After(s, before, cfg).pending then 1 else 0)
  }

  function Replacements(s: Store, run: Run<Event>, w: Snapshot, cfg: Config): nat {
    match run
    case Start => 0
    case Then(before, e) =>
      Replacements(s, before, w, cfg)
      + (if e.ReplaceEntry? && e.write == w && w in After(s, before, cfg).committed then 1 else 0)
  }

  lemma StepUsesTasksOnce(s: Store, e: Event, w: Snapshot, cfg: Config)
    ensures var u := Step(s, e, cfg);
            var committed := if e.CommitRow? && e.write == w && w in s.pending then 1 else 0;
            var replaced := if e.ReplaceEntry? && e.write == w && w in s.committed then 1 else 0;
            && u.pending[w] + committed == s.pending[w] + Schedules(s, e, w, cfg)
            && u.committed[w] + replaced == s.committed[w] + committed
  {
    if e.IsOpen? || e.Success? || e.Failure? {
      CallSchedules(s, e, w, cfg);
    } else {
      TaskMovesOnce(s, e, w, cfg);
    }
    hide Step, Schedules;
  }

  lemma CallSchedules(s: Store, e: Event, w: Snapshot, cfg: Config)
    requires e.IsOpen? || e.Success? || e.Failure?
    ensures var u := Step(s, e, cfg);
            u.pending[w] == s.pending[w] + Schedules(s, e, w, cfg) && u.committed[w] == s.committed[w]
  {
    StateChangesArePersisted(s, e, cfg);
    hide Step, GetCircuit;
  }

  lemma TaskMovesOnce(s: Store, e: Event, w: Snapshot, cfg: Config)
    requires !(e.IsOpen? || e.Success? || e.Failure?)
    ensures var u := Step(s, e, cfg);
            var committed := if e.CommitRow? && e.write == w && w in s.pending then 1 else 0;
            var replaced := if e.ReplaceEntry? && e.write == w && w in s.committed then 1 else 0;
            && u.pending[w] + committed == s.pending[w] + Schedules(s, e, w, cfg)
            && u.committed[w] + replaced == s.committed[w] + committed
  {
    match e
    case CommitRow(v, _) => CommitMovesOnce(s, v, w);
    case ReplaceEntry(v, _) => ReplaceMovesOnce(s, v, w);
    case _ =>
    hide GetCircuit, Commit, Replace;
  }

  lemma CommitMovesOnce(s: Store, v: Snapshot, w: Snapshot)
    ensures v in s.pending ==>
              var u := Commit(s, v);
              && u.pending[w] + (if v == w then 1 else 0) == s.pending[w]
              && u.committed[w] == s.committed[w] + (if v == w then 1 else 0)
  {
  }

  lemma ReplaceMovesOnce(s: Store, v: Snapshot, w: Snapshot)
    ensures v in s.committed ==>
              var u := Replace(s, v);
              u.pending == s.pending && u.committed[w] + (if v == w then 1 else 0) == s.committed[w]
  {
  }

  /** Every scheduled write is committed at most once, and replaces the cached circuit at most once after that. */
  lemma {:induction false} TasksAreUsedOnce(s: Store, run: Run<Event>, w: Snapshot, cfg: Config)
    ensures var u := After(s, run, cfg);
            && u.pending[w] + Commits(s, run, w, cfg) == s.pending[w] + ScheduledWrites(s, run, w, cfg)
            && u.committed[w] + Replacements(s, run, w, cfg) == s.committed[w] + Commits(s, run, w, cfg)
  {
    match run
    case Start =>
    case Then(before, e) =>
      TasksAreUsedOnce(s, before, w, cfg);
      hide Step, Schedules;
      StepUsesTasksOnce(After(s, before, cfg), e, w, cfg);
  }

  /** Each reload reads the rows once, and each row it read is put in the cache once. */
  lemma ReloadsReadOnce(s: Store, e: Event, row: Snapshot, cfg: Config)
    ensures var u := Step(s, e, cfg);
            var read := e.ReadRows? && s.reading > 0;
            var inTable := row.key in s.table && s.table[row.key] == row.circuit;
            && u.reading + (if read then 1 else 0) == s.reading + (if e.BeginReload? then 1 else 0)
            && u.loading[row] + (if e.LoadEntry? && e.row == row && row in s.loading then 1 else 0)
               == s.loading[row] + (if read && inTable then 1 else 0)
  {
  }
}
