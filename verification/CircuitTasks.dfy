/** The tasks under way for one circuit: what they carry, how they move on, and how one of them lands. */
module CircuitTasks {
  import opened CircuitBreaker
  import opened Runs
  import opened Timeline

  function CircuitOf(run: Run<Event>, cfg: Config, key: string): Circuit {
    GetCircuit(After(EMPTY, run, cfg).cache, key)
  }

  type Property = Circuit -> bool

  ghost predicate Carry(tasks: multiset<Snapshot>, key: string, p: Property) {
    forall w :: w in tasks && w.key == key ==> p(w.circuit)
  }

  /** Every task under way for key carries a circuit with the property; a reload may yet read the row. */
  ghost predicate TasksCarry(s: Store, key: string, p: Property) {
    && Carry(s.pending, key, p) && Carry(s.committed, key, p) && Carry(s.loading, key, p)
    && (s.reading > 0 && key in s.table ==> p(s.table[key]))
  }

  /** The circuit is one that some task for its key carries, or that a reload may yet read. */
  predicate UnderWay(s: Store, w: Snapshot) {
    w in s.pending || w in s.committed || w in s.loading || (s.reading > 0 && w in Rows(s.table))
  }

  lemma TasksCarryMeans(s: Store, key: string, p: Property)
    ensures TasksCarry(s, key, p) <==> forall w :: UnderWay(s, w) && w.key == key ==> p(w.circuit)
  {
    if key in s.table {
      assert Snapshot(key, s.table[key]) in Rows(s.table);
    }
    if forall w :: UnderWay(s, w) && w.key == key ==> p(w.circuit) {
      assert forall w :: w in s.pending || w in s.committed || w in s.loading ==> UnderWay(s, w);
      assert s.reading > 0 && key in s.table ==> UnderWay(s, Snapshot(key, s.table[key]));
    }
  }

  /** The step replaces or drops the cached circuit of key. */
  predicate Drops(s: Store, e: Event, key: string) {
    || e.BeginReload?
    || (e.ReplaceEntry? && e.write in s.committed && e.write.key == key)
    || (e.LoadEntry? && e.row in s.loading && e.row.key == key)
  }

  lemma CarryMove(tasks: multiset<Snapshot>, w: Snapshot, key: string, p: Property)
    requires Carry(tasks, key, p)
    ensures Carry(tasks - multiset{w}, key, p)
    ensures (w.key == key ==> p(w.circuit)) ==> Carry(tasks + multiset{w}, key, p)
    ensures w in tasks && w.key == key ==> p(w.circuit)
  {
  }

  /** A transition of the circuit of another key, or one of key that writes nothing without the property. */
  lemma TransitionCarries(s: Store, k: string, result: (Circuit, bool), key: string, p: Property)
    requires TasksCarry(s, key, p) && (k == key && result.1 ==> p(result.0))
    ensures TasksCarry(Transition(s, k, result), key, p)
    ensures GetCircuit(Transition(s, k, result).cache, key) == if k == key then result.0 else GetCircuit(s.cache, key)
  {
    hide Carry;
    CarryMove(s.pending, Snapshot(k, result.0), key, p);
  }

  lemma CommitCarries(s: Store, w: Snapshot, key: string, p: Property)
    requires TasksCarry(s, key, p) && w in s.pending
    ensures TasksCarry(Commit(s, w), key, p) && GetCircuit(Commit(s, w).cache, key) == GetCircuit(s.cache, key)
  {
    hide Carry;
    CarryMove(s.pending, w, key, p);
    CarryMove(s.committed, w, key, p);
  }

  lemma ReplaceCarries(s: Store, w: Snapshot, key: string, p: Property)
    requires TasksCarry(s, key, p) && w in s.committed
    ensures TasksCarry(Replace(s, w), key, p)
    ensures var c := GetCircuit(Replace(s, w).cache, key);
            if w.key == key then p(c) else c == GetCircuit(s.cache, key)
  {
    hide Carry;
    CarryMove(s.committed, w, key, p);
  }

  lemma LoadCarries(s: Store, row: Snapshot, key: string, p: Property)
    requires TasksCarry(s, key, p) && row in s.loading
    ensures TasksCarry(Load(s, row), key, p)
    ensures var c := GetCircuit(Load(s, row).cache, key);
            if row.key == key then p(c) else c == GetCircuit(s.cache, key)
  {
    hide Carry;
    CarryMove(s.loading, row, key, p);
  }

  lemma FetchKeepsCache(s: Store)
    requires s.reading > 0
    ensures Fetch(s).cache == s.cache
  {
  }

  lemma FetchCarries(s: Store, key: string, p: Property)
    requires TasksCarry(s, key, p) && s.reading > 0
    ensures TasksCarry(Fetch(s), key, p)
  {
  }

  /** A step of a task moves what it carries, and where it replaces the cached circuit that has the property then. */
  lemma LandingCarries(s: Store, e: Event, cfg: Config, key: string, p: Property)
    requires (e.CommitRow? || e.ReplaceEntry? || e.ReadRows? || e.LoadEntry?) && TasksCarry(s, key, p)
    ensures TasksCarry(Step(s, e, cfg), key, p)
    ensures var c := GetCircuit(Step(s, e, cfg).cache, key);
            if Drops(s, e, key) then p(c) else c == GetCircuit(s.cache, key)
  {
    hide TasksCarry, Commit, Replace, Fetch, Load, GetCircuit;
    match e
    case CommitRow(w, _) =>
      if w in s.pending {
        CommitCarries(s, w, key, p);
      }
    case ReplaceEntry(w, _) =>
      if w in s.committed {
        ReplaceCarries(s, w, key, p);
      }
    case ReadRows(_) =>
      if s.reading > 0 {
        FetchCarries(s, key, p);
        FetchKeepsCache(s);
      }
    case LoadEntry(row, _) =>
      if row in s.loading {
        LoadCarries(s, row, key, p);
      }
  }

  /** The clock goes from one reading to the other during the run, and never back. */
  ghost predicate Clocked(run: Run<Event>, from: Time, to: Time) {
    match run
    case Start => from <= to
    case Then(before, e) => e.now <= to && Clocked(before, from, e.now)
  }

  /** Nobody resets key or reloads the circuits; any calls are made and any task under way may go on. */
  ghost predicate LeftAlone(run: Run<Event>, key: string) {
    match run
    case Start => true
    case Then(before, e) => LeftAlone(before, key) && !(e.Reset? && e.key == key) && !e.BeginReload?
  }

  /** The run in which a task lands at the given time: a write is committed first, a row read first. */
  function Landing(s: Store, w: Snapshot, now: Time): Run<Event> {
    if w in s.pending then Then(Then(Start, CommitRow(w, now)), ReplaceEntry(w, now))
    else if w in s.committed then Then(Start, ReplaceEntry(w, now))
    else if w in s.loading then Then(Start, LoadEntry(w, now))
    else Then(Then(Start, ReadRows(now)), LoadEntry(w, now))
  }

  lemma AfterTwo(s: Store, e: Event, f: Event, cfg: Config)
    ensures After(s, Then(Start, f), cfg) == Step(s, f, cfg)
    ensures After(s, Then(Then(Start, e), f), cfg) == Step(Step(s, e, cfg), f, cfg)
  {
    assert After(s, Start, cfg) == s;
    assert After(s, Then(Start, e), cfg) == Step(s, e, cfg);
  }

  /** Nothing else happens in it. */
  lemma LandingTouchesNothing(s: Store, w: Snapshot, key: string, now: Time, later: Time)
    requires now <= later
    ensures LeftAlone(Landing(s, w, later), key) && Clocked(Landing(s, w, later), now, later)
  {
    var run := Landing(s, w, later);
    assert run.before.Then? ==> LeftAlone(run.before.before, key) && Clocked(run.before.before, now, later);
    assert LeftAlone(run.before, key) && Clocked(run.before, now, later);
  }

  lemma LandingLands(s: Store, w: Snapshot, now: Time, cfg: Config)
    requires UnderWay(s, w)
    ensures GetCircuit(After(s, Landing(s, w, now), cfg).cache, w.key) == w.circuit
  {
    hide After;
    if w in s.pending {
      AfterTwo(s, CommitRow(w, now), ReplaceEntry(w, now), cfg);
      assert w in Commit(s, w).committed;
    } else if w in s.committed {
      AfterTwo(s, ReplaceEntry(w, now), ReplaceEntry(w, now), cfg);
    } else if w in s.loading {
      AfterTwo(s, LoadEntry(w, now), LoadEntry(w, now), cfg);
    } else {
      AfterTwo(s, ReadRows(now), LoadEntry(w, now), cfg);
      assert w in Fetch(s).loading;
    }
  }
}
