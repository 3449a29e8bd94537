/** Webhook delivery: emission into a bounded queue, one dispatcher, and retries that sleep before they queue again. */
module WebhookQueue {
  import opened Outcomes
  import opened Runs
  import opened WebhookRules

  /** One delivery: an event and a hook it matched. */
  datatype Pair = Pair(event: nat, hook: string)

  datatype Task = Task(pair: Pair, attempt: nat)

  datatype Config = Config(queueSize: int, maxRetries: int, retryDelay: nat)

  datatype System = System(
    queue: seq<Task>, inFlight: Option<Task>, sleeping: seq<Task>, delivered: seq<Pair>, dropped: seq<Pair>)

  const IDLE := System([], None, [], [], [])

  function Pow(d: nat, a: nat): nat {
    if a == 0 then 1 else d * Pow(d, a - 1)
  }

  /** An asyncio queue whose size is zero or negative is unbounded. */
  predicate Full(queue: seq<Task>, cfg: Config) {
    cfg.queueSize > 0 && |queue| >= cfg.queueSize
  }

  function Put(s: System, t: Task, cfg: Config): System {
    if Full(s.queue, cfg) then s.(dropped := s.dropped + [t.pair]) else s.(queue := s.queue + [t])
  }

  /** The event goes to each matched hook in turn. */
  function PutAll(s: System, event: nat, hooks: seq<string>, cfg: Config): System {
    if hooks == [] then s
    else Put(PutAll(s, event, hooks[..|hooks| - 1], cfg), Task(Pair(event, hooks[|hooks| - 1]), 1), cfg)
  }

  function Fail(s: System, t: Task, cfg: Config): System {
    if t.attempt > cfg.maxRetries then s.(inFlight := None, dropped := s.dropped + [t.pair])
    else s.(inFlight := None, sleeping := s.sleeping + [t])
  }

  function Wake(s: System, i: nat, cfg: Config): System
    requires i < |s.sleeping|
  {
    var t := s.sleeping[i];
    Put(s.(sleeping := s.sleeping[..i] + s.sleeping[i + 1..]), t.(attempt := t.attempt + 1), cfg)
  }

  datatype Event =
    | Emit(event: nat, hooks: seq<string>)
    | Take
    | Posted(ok: bool)  // the request was answered, or failed
    | Crashed           // an exception outside the request; the task is lost
    | WakeUp(i: nat)    // the i-th sleeping task's delay is over

  predicate Enabled(s: System, e: Event) {
    match e
    case Emit(_, _) => true
    case Take => s.inFlight == None && s.queue != []
    case Posted(_) => s.inFlight.Some?
    case Crashed => s.inFlight.Some?
    case WakeUp(i) => i < |s.sleeping|
  }

  function Step(s: System, e: Event, cfg: Config): System
    requires Enabled(s, e)
  {
    match e
    case Emit(event, hooks) => PutAll(s, event, hooks, cfg)
    case Take => s.(inFlight := Some(s.queue[0]), queue := s.queue[1..])
    case Posted(ok) =>
      if ok then s.(inFlight := None, delivered := s.delivered + [s.inFlight.value.pair])
      else Fail(s, s.inFlight.value, cfg)
    case Crashed => s.(inFlight := None, dropped := s.dropped + [s.inFlight.value.pair])
    case WakeUp(i) => Wake(s, i, cfg)
  }

  // ---------------------------------------------------------------------------
  // Emitter and dispatcher
  // ---------------------------------------------------------------------------

  class Dispatcher {
    const cfg: Config
    var queue: seq<Task>
    var inFlight: Option<Task>
    var sleeping: seq<Task>
    var delivered: seq<Pair>
    var dropped: seq<Pair>

    constructor (cfg: Config)
      ensures this.cfg == cfg && Contents() == IDLE
    {
      this.cfg := cfg;
      queue, inFlight, sleeping, delivered, dropped := [], None, [], [], [];
    }

    ghost function Contents(): System
      reads this
    {
      System(queue, inFlight, sleeping, delivered, dropped)
    }

    /** put_nowait, with the caller's handling of a full queue. */
    method PutOrDrop(t: Task)
      modifies this`queue, this`dropped
      ensures Contents() == Put(old(Contents()), t, cfg)
    {
      if cfg.queueSize > 0 && |queue| >= cfg.queueSize {
        dropped := dropped + [t.pair];
      } else {
        queue := queue + [t];
      }
    }

    /** The switches are the feature and the webhook setting; matching raises before anything is queued. */
    method EmitEvent(feature: bool, enabled: bool, event: nat, hooks: seq<Hook>, n: Notice, decode: Decoder)
      returns (raised: bool)
      modifies this`queue, this`dropped
      ensures raised == (feature && enabled && MatchedNames(hooks, n, decode) == None)
      ensures Contents()
           == if feature && enabled && !raised
              then PutAll(old(Contents()), event, MatchedNames(hooks, n, decode).value, cfg) else old(Contents())
    {
      if !feature || !enabled {
        return false;
      }
      var matched: seq<string> := [];
      for i := 0 to |hooks|
        invariant MatchedNames(hooks[..i], n, decode) == Some(matched)
      {
        assert hooks[..i + 1][..i] == hooks[..i];
        match Matched(hooks[i], n, decode) {
          case None =>
            NoneStays(hooks, i + 1, n, decode);
            return true;
          case Some(covered) =>
            if covered {
              matched := matched + [hooks[i].name];
            }
        }
      }
      assert hooks[..|hooks|] == hooks;
      for i := 0 to |matched|
        invariant Contents() == PutAll(old(Contents()), event, matched[..i], cfg)
      {
        assert matched[..i + 1][..i] == matched[..i];
        PutOrDrop(Task(Pair(event, matched[i]), 1));
      }
      assert matched[..|matched|] == matched;
      return false;
    }

    method GetTask()
      requires inFlight == None && queue != []
      modifies this`queue, this`inFlight
      ensures Contents() == Step(old(Contents()), Take, cfg)
    {
      inFlight := Some(queue[0]);
      queue := queue[1..];
    }

    method ProcessDispatchTask(ok: bool)
      requires inFlight.Some?
      modifies this
      ensures Contents() == Step(old(Contents()), Posted(ok), cfg)
    {
      var task := inFlight.value;
      if ok {
        delivered := delivered + [task.pair];
      } else {
        HandleDispatchFailure(task);
      }
      inFlight := None;
    }

    method HandleDispatchFailure(task: Task)
      modifies this`sleeping, this`dropped
      ensures Contents().(inFlight := None) == Fail(old(Contents()), task, cfg)
    {
      if task.attempt > cfg.maxRetries {
        dropped := dropped + [task.pair];
      } else {
        sleeping := sleeping + [task];
      }
    }

    /** The end of a retry routine: the i-th sleeper goes back to the queue. */
    method RetryRoutine(i: nat)
      requires i < |sleeping|
      modifies this
      ensures Contents() == Step(old(Contents()), WakeUp(i), cfg)
    {
      var task := sleeping[i];
      sleeping := sleeping[..i] + sleeping[i + 1..];
      PutOrDrop(task.(attempt := task.attempt + 1));
    }
  }

  // ---------------------------------------------------------------------------
  // Runs
  // ---------------------------------------------------------------------------

  ghost predicate Possible(s: System, run: Run<Event>, cfg: Config) {
    match run
    case Start => true
    case Then(before, e) => Possible(s, before, cfg) && Enabled(After(s, before, cfg), e)
  }

  /** The system after a run from s. */
  function After(s: System, run: Run<Event>, cfg: Config): System {
    match run
    case Start => s
    case Then(before, e) =>
      var t := After(s, before, cfg);
      if Enabled(t, e) then Step(t, e, cfg) else t
  }

  // ---------------------------------------------------------------------------
  // Conservation
  // ---------------------------------------------------------------------------

  function CountTasks(tasks: seq<Task>, p: Pair): nat {
    if tasks == [] then 0
    else CountTasks(tasks[..|tasks| - 1], p) + (if tasks[|tasks| - 1].pair == p then 1 else 0)
  }

  function CountPairs(pairs: seq<Pair>, p: Pair): nat {
    if pairs == [] then 0
    else CountPairs(pairs[..|pairs| - 1], p) + (if pairs[|pairs| - 1] == p then 1 else 0)
  }

  /** In how many places the pair is. */
  function Places(s: System, p: Pair): nat {
    CountTasks(s.queue, p) + (if s.inFlight.Some? && s.inFlight.value.pair == p then 1 else 0)
    + CountTasks(s.sleeping, p) + CountPairs(s.delivered, p) + CountPairs(s.dropped, p)
  }

  /** How often the pair was emitted during the run. */
  function Emitted(run: Run<Event>, p: Pair): nat {
    match run
    case Start => 0
    case Then(before, e) =>
      Emitted(before, p) + (if e.Emit? && e.event == p.event then CountNames(e.hooks, p.hook) else 0)
  }

  lemma {:induction false} CountTasksConcat(a: seq<Task>, b: seq<Task>, p: Pair)
    ensures CountTasks(a + b, p) == CountTasks(a, p) + CountTasks(b, p)
  {
    if b == [] {
      assert a + b == a;
    } else {
      CountTasksConcat(a, b[..|b| - 1], p);
      assert (a + b)[..|a + b| - 1] == a + b[..|b| - 1];
    }
  }

  lemma CountPairsAppend(a: seq<Pair>, q: Pair, p: Pair)
    ensures CountPairs(a + [q], p) == CountPairs(a, p) + (if q == p then 1 else 0)
  {
    assert (a + [q])[..|a|] == a;
  }

  lemma CountOne(t: Task, p: Pair)
    ensures CountTasks([t], p) == if t.pair == p then 1 else 0
  {
    assert [t][..0] == [];
  }

  lemma PutPlaces(s: System, t: Task, cfg: Config, p: Pair)
    ensures Places(Put(s, t, cfg), p) == Places(s, p) + (if t.pair == p then 1 else 0)
  {
    CountTasksConcat(s.queue, [t], p);
    CountOne(t, p);
    CountPairsAppend(s.dropped, t.pair, p);
  }

  lemma {:induction false} PutAllPlaces(s: System, event: nat, hooks: seq<string>, cfg: Config, p: Pair)
    ensures Places(PutAll(s, event, hooks, cfg), p)
         == Places(s, p) + (if event == p.event then CountNames(hooks, p.hook) else 0)
  {
    if hooks != [] {
      var init := hooks[..|hooks| - 1];
      PutAllPlaces(s, event, init, cfg, p);
      PutPlaces(PutAll(s, event, init, cfg), Task(Pair(event, hooks[|hooks| - 1]), 1), cfg, p);
    }
  }

  lemma RemoveCount(tasks: seq<Task>, i: nat, p: Pair)
    requires i < |tasks|
    ensures CountTasks(tasks, p)
         == CountTasks(tasks[..i] + tasks[i + 1..], p) + (if tasks[i].pair == p then 1 else 0)
  {
    var front, back := tasks[..i], tasks[i + 1..];
    assert tasks == front + ([tasks[i]] + back);
    CountTasksConcat(front, [tasks[i]] + back, p);
    CountTasksConcat([tasks[i]], back, p);
    CountTasksConcat(front, back, p);
    CountOne(tasks[i], p);
  }

  lemma PostedPlaces(s: System, ok: bool, cfg: Config, p: Pair)
    requires s.inFlight.Some?
    ensures Places(Step(s, Posted(ok), cfg), p) == Places(s, p)
  {
    hide CountTasks, CountPairs;
    var t := s.inFlight.value;
    CountPairsAppend(s.delivered, t.pair, p);
    CountPairsAppend(s.dropped, t.pair, p);
    CountTasksConcat(s.sleeping, [t], p);
    CountOne(t, p);
  }

  lemma WakePlaces(s: System, i: nat, cfg: Config, p: Pair)
    requires i < |s.sleeping|
    ensures Places(Wake(s, i, cfg), p) == Places(s, p)
  {
    hide CountTasks, CountPairs;
    var t, rest := s.sleeping[i], s.sleeping[..i] + s.sleeping[i + 1..];
    RemoveCount(s.sleeping, i, p);
    PutPlaces(s.(sleeping := rest), t.(attempt := t.attempt + 1), cfg, p);
  }

  lemma TakePlaces(s: System, cfg: Config, p: Pair)
    requires Enabled(s, Take)
    ensures Places(Step(s, Take, cfg), p) == Places(s, p)
  {
    hide CountTasks, CountPairs;
    RemoveCount(s.queue, 0, p);
    assert s.queue[..0] + s.queue[1..] == s.queue[1..];
  }

  lemma CrashPlaces(s: System, cfg: Config, p: Pair)
    requires Enabled(s, Crashed)
    ensures Places(Step(s, Crashed, cfg), p) == Places(s, p)
  {
    hide CountTasks, CountPairs;
    CountPairsAppend(s.dropped, s.inFlight.value.pair, p);
  }

  /** A step other than an emission moves a pair from one place to another. */
  lemma StepPlaces(s: System, e: Event, cfg: Config, p: Pair)
    requires Enabled(s, e) && !e.Emit?
    ensures Places(Step(s, e, cfg), p) == Places(s, p)
  {
    hide Places, Fail, Put;
    match e
    case Take => TakePlaces(s, cfg, p);
    case Posted(ok) => PostedPlaces(s, ok, cfg, p);
    case Crashed => CrashPlaces(s, cfg, p);
    case WakeUp(i) => WakePlaces(s, i, cfg, p);
  }

  /** In every run each emission of a pair is in exactly one place: queued, in flight, asleep, delivered or dropped. */
  lemma {:induction false} Conservation(run: Run<Event>, cfg: Config, p: Pair)
    requires Possible(IDLE, run, cfg)
    ensures Places(After(IDLE, run, cfg), p) == Emitted(run, p)
  {
    match run
    case Start =>
    case Then(before, e) =>
      Conservation(before, cfg, p);
      var s := After(IDLE, before, cfg);
      if e.Emit? {
        PutAllPlaces(s, e.event, e.hooks, cfg, p);
      } else {
        StepPlaces(s, e, cfg, p);
      }
  }

  // ---------------------------------------------------------------------------
  // The queue bound
  // ---------------------------------------------------------------------------

  lemma {:induction false} PutAllBounded(s: System, event: nat, hooks: seq<string>, cfg: Config)
    requires cfg.queueSize > 0 && |s.queue| <= cfg.queueSize
    ensures |PutAll(s, event, hooks, cfg).queue| <= cfg.queueSize
  {
    if hooks != [] {
      PutAllBounded(s, event, hooks[..|hooks| - 1], cfg);
    }
  }

  lemma {:induction false} QueueBounded(run: Run<Event>, cfg: Config)
    requires cfg.queueSize > 0
    ensures |After(IDLE, run, cfg).queue| <= cfg.queueSize
  {
    match run
    case Start =>
    case Then(before, e) =>
      QueueBounded(before, cfg);
      if e.Emit? {
        PutAllBounded(After(IDLE, before, cfg), e.event, e.hooks, cfg);
      }
  }

  // ---------------------------------------------------------------------------
  // Posts and sleep
  // ---------------------------------------------------------------------------

  /** The number of posts a task may take: the first and max_retries more. */
  function MaxPosts(cfg: Config): nat {
    if cfg.maxRetries > 0 then cfg.maxRetries + 1 else 1
  }

  /** retry_delay^1 + ... + retry_delay^n */
  function SleepSum(n: nat, cfg: Config): nat {
    if n == 0 then 0 else SleepSum(n - 1, cfg) + Pow(cfg.retryDelay, n)
  }

  predicate Posts(s: System, e: Event, p: Pair) {
    e.Posted? && s.inFlight.Some? && s.inFlight.value.pair == p
  }

  /** How often the pair was posted. */
  function PostCount(run: Run<Event>, cfg: Config, p: Pair): nat {
    match run
    case Start => 0
    case Then(before, e) => PostCount(before, cfg, p) + (if Posts(After(IDLE, before, cfg), e, p) then 1 else 0)
  }

  /** The seconds of sleep scheduled for the pair. */
  function Slept(run: Run<Event>, cfg: Config, p: Pair): nat {
    match run
    case Start => 0
    case Then(before, e) =>
      var s := After(IDLE, before, cfg);
      Slept(before, cfg, p)
      + (if Posts(s, e, p) && !e.ok && s.inFlight.value.attempt <= cfg.maxRetries
         then Pow(cfg.retryDelay, s.inFlight.value.attempt) else 0)
  }

  /** What a task on its way to be posted says about its past, and what a sleeping one says. */
  ghost predicate FreshTask(t: Task, posts: nat, slept: nat, cfg: Config) {
    1 <= t.attempt <= MaxPosts(cfg) && posts == t.attempt - 1 && slept == SleepSum(t.attempt - 1, cfg)
  }

  ghost predicate FailedTask(t: Task, posts: nat, slept: nat, cfg: Config) {
    1 <= t.attempt <= cfg.maxRetries && posts == t.attempt && slept == SleepSum(t.attempt, cfg)
  }

  ghost predicate Ledger(s: System, p: Pair, posts: nat, slept: nat, cfg: Config) {
    && (forall t :: t in s.queue && t.pair == p ==> FreshTask(t, posts, slept, cfg))
    && (s.inFlight.Some? && s.inFlight.value.pair == p ==> FreshTask(s.inFlight.value, posts, slept, cfg))
    && (forall t :: t in s.sleeping && t.pair == p ==> FailedTask(t, posts, slept, cfg))
    && posts <= MaxPosts(cfg) && slept <= SleepSum(MaxPosts(cfg) - 1, cfg)
  }

  lemma {:induction false} CountedMeansThere(tasks: seq<Task>, p: Pair)
    ensures CountTasks(tasks, p) > 0 <==> exists t :: t in tasks && t.pair == p
  {
    if tasks != [] {
      CountedMeansThere(tasks[..|tasks| - 1], p);
      assert tasks == tasks[..|tasks| - 1] + [tasks[|tasks| - 1]];
    }
  }

  lemma {:induction false} CountedNames(names: seq<string>, name: string)
    ensures CountNames(names, name) > 0 <==> name in names
  {
    if names != [] {
      CountedNames(names[..|names| - 1], name);
      assert names == names[..|names| - 1] + [names[|names| - 1]];
    }
  }

  lemma {:induction false} PutAllTasks(s: System, event: nat, hooks: seq<string>, cfg: Config, t: Task)
    requires t in PutAll(s, event, hooks, cfg).queue
    ensures t in s.queue || (t.attempt == 1 && t.pair.event == event && t.pair.hook in hooks)
  {
    if hooks != [] {
      var init := hooks[..|hooks| - 1];
      assert hooks == init + [hooks[|hooks| - 1]];
      if t in PutAll(s, event, init, cfg).queue {
        PutAllTasks(s, event, init, cfg, t);
      }
    }
  }

  lemma {:induction false} PutAllKeepsRest(s: System, event: nat, hooks: seq<string>, cfg: Config)
    ensures var u := PutAll(s, event, hooks, cfg);
            u.inFlight == s.inFlight && u.sleeping == s.sleeping
  {
    if hooks != [] {
      PutAllKeepsRest(s, event, hooks[..|hooks| - 1], cfg);
    }
  }

  lemma {:induction false} SleepSumGrows(a: nat, b: nat, cfg: Config)
    requires a <= b
    ensures SleepSum(a, cfg) <= SleepSum(b, cfg)
  {
    if a < b {
      SleepSumGrows(a, b - 1, cfg);
    }
  }

  lemma EmitLedger(s: System, e: Event, cfg: Config, p: Pair, posts: nat, slept: nat)
    requires e.Emit? && Ledger(s, p, posts, slept, cfg)
    requires e.event == p.event && p.hook in e.hooks ==> posts == slept == 0
    ensures Ledger(Step(s, e, cfg), p, posts, slept, cfg)
  {
    PutAllKeepsRest(s, e.event, e.hooks, cfg);
    var u := PutAll(s, e.event, e.hooks, cfg);
    forall t | t in u.queue && t.pair == p
      ensures FreshTask(t, posts, slept, cfg)
    {
      PutAllTasks(s, e.event, e.hooks, cfg, t);
    }
  }

  lemma PostLedger(s: System, ok: bool, cfg: Config, p: Pair, posts: nat, slept: nat)
    requires s.inFlight.Some? && s.inFlight.value.pair == p && Places(s, p) <= 1
    requires Ledger(s, p, posts, slept, cfg)
    ensures var t := s.inFlight.value;
            var more := if !ok && t.attempt <= cfg.maxRetries then Pow(cfg.retryDelay, t.attempt) else 0;
            Ledger(Step(s, Posted(ok), cfg), p, posts + 1, slept + more, cfg)
  {
    CountedMeansThere(s.queue, p);
    CountedMeansThere(s.sleeping, p);
    SleepSumGrows(s.inFlight.value.attempt - 1, MaxPosts(cfg) - 1, cfg);
    if s.inFlight.value.attempt <= cfg.maxRetries {
      SleepSumGrows(s.inFlight.value.attempt, MaxPosts(cfg) - 1, cfg);
    }
  }

  lemma MoveLedger(s: System, e: Event, cfg: Config, p: Pair, posts: nat, slept: nat)
    requires Enabled(s, e) && !e.Emit? && !Posts(s, e, p)
    requires Ledger(s, p, posts, slept, cfg)
    ensures Ledger(Step(s, e, cfg), p, posts, slept, cfg)
  {
  }

  lemma LedgerStep(before: Run<Event>, e: Event, cfg: Config, p: Pair)
    requires Possible(IDLE, Then(before, e), cfg) && Emitted(Then(before, e), p) <= 1
    requires Ledger(After(IDLE, before, cfg), p, PostCount(before, cfg, p), Slept(before, cfg, p), cfg)
    requires Emitted(before, p) == 0 ==> PostCount(before, cfg, p) == 0 && Slept(before, cfg, p) == 0
    ensures Ledger(After(IDLE, Then(before, e), cfg), p,
                   PostCount(Then(before, e), cfg, p), Slept(Then(before, e), cfg, p), cfg)
    ensures Emitted(Then(before, e), p) == 0
        ==> PostCount(Then(before, e), cfg, p) == 0 && Slept(Then(before, e), cfg, p) == 0
  {
    hide Ledger, Places, Step, Pow, SleepSum, MaxPosts;
    Conservation(before, cfg, p);
    var s, posts, slept := After(IDLE, before, cfg), PostCount(before, cfg, p), Slept(before, cfg, p);
    if e.Emit? {
      CountedNames(e.hooks, p.hook);
      EmitLedger(s, e, cfg, p, posts, slept);
    } else if Posts(s, e, p) {
      PostLedger(s, e.ok, cfg, p, posts, slept);
      InFlightIsPlaced(s, p);
    } else {
      MoveLedger(s, e, cfg, p, posts, slept);
    }
  }

  /** Along every run that emits the pair at most once, posts and sleep are what the tasks' attempts say. */
  lemma {:induction false} LedgerAlways(run: Run<Event>, cfg: Config, p: Pair)
    requires Possible(IDLE, run, cfg) && Emitted(run, p) <= 1
    ensures Ledger(After(IDLE, run, cfg), p, PostCount(run, cfg, p), Slept(run, cfg, p), cfg)
    ensures Emitted(run, p) == 0 ==> PostCount(run, cfg, p) == 0 && Slept(run, cfg, p) == 0
  {
    match run
    case Start =>
    case Then(before, e) =>
      LedgerAlways(before, cfg, p);
      LedgerStep(before, e, cfg, p);
  }

  lemma InFlightIsPlaced(s: System, p: Pair)
    requires s.inFlight.Some? && s.inFlight.value.pair == p
    ensures Places(s, p) >= 1
  {
  }

  ghost predicate NotEmitted(run: Run<Event>, event: nat) {
    match run
    case Start => true
    case Then(before, e) => NotEmitted(before, event) && !(e.Emit? && e.event == event)
  }

  /** Emissions come from the emitter: each has its own event number, and goes to the hooks that some notice matches. */
  ghost predicate FromEmitter(run: Run<Event>, hooks: seq<Hook>, decode: Decoder) {
    match run
    case Start => true
    case Then(before, e) =>
      && FromEmitter(before, hooks, decode)
      && (e.Emit? ==>
          && NotEmitted(before, e.event)
          && exists n :: MatchedNames(hooks, n, decode) == Some(e.hooks))
  }

  lemma {:induction false} NotEmittedCountsZero(run: Run<Event>, p: Pair)
    requires NotEmitted(run, p.event)
    ensures Emitted(run, p) == 0
  {
    match run
    case Start =>
    case Then(before, e) => NotEmittedCountsZero(before, p);
  }

  /** So no pair is emitted twice. */
  lemma {:induction false} EmittedAtMostOnce(run: Run<Event>, hooks: seq<Hook>, decode: Decoder, p: Pair)
    requires DistinctNames(hooks) && FromEmitter(run, hooks, decode)
    ensures Emitted(run, p) <= 1
  {
    match run
    case Start =>
    case Then(before, e) =>
      EmittedAtMostOnce(before, hooks, decode, p);
      if e.Emit? && e.event == p.event {
        NotEmittedCountsZero(before, p);
        var n :| MatchedNames(hooks, n, decode) == Some(e.hooks);
        EmittedOnceToEachMatch(hooks, n, decode, p.hook);
      }
  }

  /** A pair is posted at most max_retries + 1 times, and sleeps at most the sum of the configured delays. */
  lemma PostsAndSleepBounded(
      run: Run<Event>, cfg: Config, hooks: seq<Hook>, decode: Decoder, p: Pair)
    requires Possible(IDLE, run, cfg) && DistinctNames(hooks) && FromEmitter(run, hooks, decode)
    ensures PostCount(run, cfg, p) <= MaxPosts(cfg)
    ensures Slept(run, cfg, p) <= SleepSum(MaxPosts(cfg) - 1, cfg)
  {
    EmittedAtMostOnce(run, hooks, decode, p);
    LedgerAlways(run, cfg, p);
  }

  /** A pair that is given up after a failed post has had all its posts and has slept for all the delays. */
  lemma GivesUpOnlyAfterAllPosts(
      run: Run<Event>, cfg: Config, hooks: seq<Hook>, decode: Decoder, p: Pair)
    requires Possible(IDLE, Then(run, Posted(false)), cfg) && DistinctNames(hooks) && FromEmitter(run, hooks, decode)
    requires var s := After(IDLE, run, cfg);
             s.inFlight.Some? && s.inFlight.value.pair == p && Fail(s, s.inFlight.value, cfg).dropped != s.dropped
    ensures PostCount(Then(run, Posted(false)), cfg, p) == MaxPosts(cfg)
    ensures Slept(Then(run, Posted(false)), cfg, p) == SleepSum(MaxPosts(cfg) - 1, cfg)
  {
    EmittedAtMostOnce(run, hooks, decode, p);
    LedgerAlways(run, cfg, p);
  }

  // ---------------------------------------------------------------------------
  // Termination
  // ---------------------------------------------------------------------------

  /** The steps a task may still take from its place: three per post that is left. */
  function Weight(t: Task, phase: nat, cfg: Config): nat {
    if t.attempt <= MaxPosts(cfg) then 3 * (MaxPosts(cfg) - t.attempt) + phase else phase
  }

  function TotalWeight(tasks: seq<Task>, phase: nat, cfg: Config): nat {
    if tasks == [] then 0
    else TotalWeight(tasks[..|tasks| - 1], phase, cfg) + Weight(tasks[|tasks| - 1], phase, cfg)
  }

  function Measure(s: System, cfg: Config): nat {
    TotalWeight(s.queue, 3, cfg) + (if s.inFlight.Some? then Weight(s.inFlight.value, 2, cfg) else 0)
    + TotalWeight(s.sleeping, 1, cfg)
  }

  /** Only a task with retries left was put to sleep. */
  ghost predicate SleepersMayRetry(s: System, cfg: Config) {
    forall t :: t in s.sleeping ==> t.attempt <= cfg.maxRetries
  }

  lemma {:induction false} WeightConcat(a: seq<Task>, b: seq<Task>, phase: nat, cfg: Config)
    ensures TotalWeight(a + b, phase, cfg) == TotalWeight(a, phase, cfg) + TotalWeight(b, phase, cfg)
  {
    if b == [] {
      assert a + b == a;
    } else {
      WeightConcat(a, b[..|b| - 1], phase, cfg);
      assert (a + b)[..|a + b| - 1] == a + b[..|b| - 1];
    }
  }

  lemma WeightOne(t: Task, phase: nat, cfg: Config)
    ensures TotalWeight([t], phase, cfg) == Weight(t, phase, cfg)
  {
    assert [t][..0] == [];
  }

  lemma WeightRemove(tasks: seq<Task>, i: nat, phase: nat, cfg: Config)
    requires i < |tasks|
    ensures TotalWeight(tasks, phase, cfg)
         == TotalWeight(tasks[..i] + tasks[i + 1..], phase, cfg) + Weight(tasks[i], phase, cfg)
  {
    var front, back := tasks[..i], tasks[i + 1..];
    assert tasks == front + ([tasks[i]] + back);
    WeightConcat(front, [tasks[i]] + back, phase, cfg);
    WeightConcat([tasks[i]], back, phase, cfg);
    WeightConcat(front, back, phase, cfg);
    WeightOne(tasks[i], phase, cfg);
  }

  /** Every step other than an emission brings the work closer to its end. */
  lemma StepProgress(s: System, e: Event, cfg: Config)
    requires Enabled(s, e) && !e.Emit? && SleepersMayRetry(s, cfg)
    ensures Measure(Step(s, e, cfg), cfg) < Measure(s, cfg)
    ensures SleepersMayRetry(Step(s, e, cfg), cfg)
  {
    hide TotalWeight;
    match e
    case Take =>
      WeightRemove(s.queue, 0, 3, cfg);
      assert s.queue[..0] + s.queue[1..] == s.queue[1..];
    case Posted(ok) =>
      WeightConcat(s.sleeping, [s.inFlight.value], 1, cfg);
      WeightOne(s.inFlight.value, 1, cfg);
    case Crashed =>
    case WakeUp(i) =>
      var t := s.sleeping[i];
      WeightRemove(s.sleeping, i, 1, cfg);
      WeightConcat(s.queue, [t.(attempt := t.attempt + 1)], 3, cfg);
      WeightOne(t.(attempt := t.attempt + 1), 3, cfg);
  }

  ghost predicate NoEmissions(run: Run<Event>) {
    match run
    case Start => true
    case Then(before, e) => NoEmissions(before) && !e.Emit?
  }

  lemma {:induction false} SleepersAlwaysMayRetry(run: Run<Event>, cfg: Config)
    ensures SleepersMayRetry(After(IDLE, run, cfg), cfg)
  {
    match run
    case Start =>
    case Then(before, e) =>
      SleepersAlwaysMayRetry(before, cfg);
      if e.Emit? {
        PutAllKeepsRest(After(IDLE, before, cfg), e.event, e.hooks, cfg);
      }
  }

  /** Once emissions stop, a run has no more steps than the measure of the state it starts from. */
  lemma {:induction false} WorkEnds(s: System, run: Run<Event>, cfg: Config)
    requires SleepersMayRetry(s, cfg) && Possible(s, run, cfg) && NoEmissions(run)
    ensures Length(run) + Measure(After(s, run, cfg), cfg) <= Measure(s, cfg)
    ensures SleepersMayRetry(After(s, run, cfg), cfg)
  {
    match run
    case Start =>
    case Then(before, e) =>
      WorkEnds(s, before, cfg);
      StepProgress(After(s, before, cfg), e, cfg);
  }

  lemma {:induction false} FollowedReaches(s: System, run: Run<Event>, more: Run<Event>, cfg: Config)
    requires Possible(s, run, cfg) && Possible(After(s, run, cfg), more, cfg)
    ensures Possible(s, Followed(run, more), cfg)
    ensures After(s, Followed(run, more), cfg) == After(After(s, run, cfg), more, cfg)
  {
    match more
    case Start =>
    case Then(before, e) => FollowedReaches(s, run, before, cfg);
  }

  lemma {:induction false} NothingMoreEmitted(run: Run<Event>, more: Run<Event>, p: Pair)
    requires NoEmissions(more)
    ensures Emitted(Followed(run, more), p) == Emitted(run, p)
  {
    match more
    case Start =>
    case Then(before, e) => NothingMoreEmitted(run, before, p);
  }

  /** Nothing is left to do: the dispatcher waits on an empty queue and no task is in flight or asleep. */
  ghost predicate Settled(s: System) {
    forall e: Event :: !e.Emit? ==> !Enabled(s, e)
  }

  /** How many tasks are on their way. */
  function Outstanding(s: System): nat {
    |s.queue| + (if s.inFlight.Some? then 1 else 0) + |s.sleeping|
  }

  lemma {:induction false} WeightBounded(tasks: seq<Task>, phase: nat, cfg: Config)
    requires phase <= 3 && forall t :: t in tasks ==> t.attempt >= 1
    ensures TotalWeight(tasks, phase, cfg) <= 3 * MaxPosts(cfg) * |tasks|
  {
    if tasks != [] {
      var init, last := tasks[..|tasks| - 1], tasks[|tasks| - 1];
      assert tasks == init + [last];
      WeightBounded(init, phase, cfg);
      assert Weight(last, phase, cfg) <= 3 * MaxPosts(cfg);
      Distribute(3 * MaxPosts(cfg), |init|);
    }
  }

  lemma Distribute(x: int, n: int)
    ensures x * (n + 1) == x * n + x
  {
  }

  ghost predicate Numbered(s: System) {
    && (forall t :: t in s.queue ==> t.attempt >= 1)
    && (s.inFlight.Some? ==> s.inFlight.value.attempt >= 1)
    && (forall t :: t in s.sleeping ==> t.attempt >= 1)
  }

  lemma StepKeepsNumbered(s: System, e: Event, cfg: Config)
    requires Numbered(s) && Enabled(s, e)
    ensures Numbered(Step(s, e, cfg))
  {
    if e.Emit? {
      PutAllKeepsRest(s, e.event, e.hooks, cfg);
      forall t | t in PutAll(s, e.event, e.hooks, cfg).queue
        ensures t.attempt >= 1
      {
        PutAllTasks(s, e.event, e.hooks, cfg, t);
      }
    }
  }

  lemma {:induction false} NumberedAlways(run: Run<Event>, cfg: Config)
    ensures Numbered(After(IDLE, run, cfg))
  {
    match run
    case Start =>
    case Then(before, e) =>
      NumberedAlways(before, cfg);
      hide Numbered, Step, Enabled;
      if Enabled(After(IDLE, before, cfg), e) {
        StepKeepsNumbered(After(IDLE, before, cfg), e, cfg);
      }
  }

  lemma MeasureBounded(s: System, cfg: Config)
    requires Numbered(s)
    ensures Measure(s, cfg) <= 3 * MaxPosts(cfg) * Outstanding(s)
  {
    hide TotalWeight;
    var m := 3 * MaxPosts(cfg);
    WeightBounded(s.queue, 3, cfg);
    WeightBounded(s.sleeping, 1, cfg);
    hide MaxPosts;
    if s.inFlight.Some? {
      assert Weight(s.inFlight.value, 2, cfg) <= m by {
        assert s.inFlight.value.attempt >= 1;
      }
      Distribute(m, |s.queue|);
      assert m * (|s.queue| + 1 + |s.sleeping|) == m * (|s.queue| + 1) + m * |s.sleeping|;
    } else {
      assert m * (|s.queue| + |s.sleeping|) == m * |s.queue| + m * |s.sleeping|;
    }
  }

  /** When nothing is left to do, every emitted pair has been delivered or dropped, each emission once. */
  lemma AllSettledAtTheEnd(run: Run<Event>, cfg: Config, p: Pair)
    requires Possible(IDLE, run, cfg)
    requires Settled(After(IDLE, run, cfg))
    ensures var s := After(IDLE, run, cfg);
            CountPairs(s.delivered, p) + CountPairs(s.dropped, p) == Emitted(run, p)
  {
    var s := After(IDLE, run, cfg);
    Conservation(run, cfg, p);
    assert !Enabled(s, Posted(true)) && !Enabled(s, Take) && !Enabled(s, WakeUp(0));
    assert s.queue == [] && s.inFlight == None && s.sleeping == [];
  }

  /**
   Once emissions stop, after any run, at most three steps per possible post of each task on its way are left. Where no
   step is left, every pair has been delivered or dropped as often as it was emitted.
   */
  lemma {:induction false} EverythingSettles(run: Run<Event>, more: Run<Event>, cfg: Config, p: Pair)
    requires Possible(IDLE, run, cfg) && Possible(After(IDLE, run, cfg), more, cfg) && NoEmissions(more)
    ensures Length(more) <= 3 * MaxPosts(cfg) * Outstanding(After(IDLE, run, cfg))
    ensures var s := After(After(IDLE, run, cfg), more, cfg);
            Settled(s) ==> CountPairs(s.delivered, p) + CountPairs(s.dropped, p) == Emitted(run, p)
  {
    SleepersAlwaysMayRetry(run, cfg);
    WorkEnds(After(IDLE, run, cfg), more, cfg);
    NumberedAlways(run, cfg);
    MeasureBounded(After(IDLE, run, cfg), cfg);
    FollowedReaches(IDLE, run, more, cfg);
    if Settled(After(After(IDLE, run, cfg), more, cfg)) {
      AllSettledAtTheEnd(Followed(run, more), cfg, p);
      NothingMoreEmitted(run, more, p);
    }
  }

  // ---------------------------------------------------------------------------
  // Who gets a place, in which order, and what becomes of it
  // ---------------------------------------------------------------------------

  /** How many more tasks the queue takes, of n that come. */
  function Room(s: System, n: nat, cfg: Config): nat {
    if cfg.queueSize <= 0 then n
    else if |s.queue| >= cfg.queueSize then 0
    else if cfg.queueSize - |s.queue| < n then cfg.queueSize - |s.queue|
    else n
  }

  function FirstAttempts(event: nat, hooks: seq<string>): seq<Task> {
    seq(|hooks|, i requires 0 <= i < |hooks| => Task(Pair(event, hooks[i]), 1))
  }

  function PairsOf(event: nat, hooks: seq<string>): seq<Pair> {
    seq(|hooks|, i requires 0 <= i < |hooks| => Pair(event, hooks[i]))
  }

  /** The first hooks get the room there is, in order, with a first attempt each; the others are dropped. */
  lemma {:induction false} EmissionFillsRoom(s: System, event: nat, hooks: seq<string>, cfg: Config)
    ensures var n := Room(s, |hooks|, cfg);
            PutAll(s, event, hooks, cfg)
            == s.(queue := s.queue + FirstAttempts(event, hooks[..n]),
                  dropped := s.dropped + PairsOf(event, hooks[n..]))
  {
    if |hooks| == 0 {
      assert s.queue + FirstAttempts(event, []) == s.queue && s.dropped + PairsOf(event, []) == s.dropped;
    } else {
      var n := |hooks| - 1;
      var init, m := hooks[..n], Room(s, n, cfg);
      EmissionFillsRoom(s, event, init, cfg);
      if Room(s, |hooks|, cfg) == |hooks| {
        assert init[..n] == init && hooks[..|hooks|] == hooks && hooks[|hooks|..] == init[n..] == [];
        assert FirstAttempts(event, hooks) == FirstAttempts(event, init) + [Task(Pair(event, hooks[n]), 1)];
      } else {
        assert hooks[..m] == init[..m];
        assert PairsOf(event, hooks[m..]) == PairsOf(event, init[m..]) + [Pair(event, hooks[n])];
      }
    }
  }

  /** A sleeper that wakes up queues behind all others with its next attempt if there is room, and is dropped if not. */
  lemma WakingTakesRoom(s: System, i: nat, cfg: Config)
    requires i < |s.sleeping|
    ensures var t, u := s.sleeping[i], Wake(s, i, cfg);
            && u.sleeping == s.sleeping[..i] + s.sleeping[i + 1..] && u.inFlight == s.inFlight
            && u.delivered == s.delivered
            && if Room(s, 1, cfg) == 1 then u.queue == s.queue + [Task(t.pair, t.attempt + 1)] && u.dropped == s.dropped
               else u.queue == s.queue && u.dropped == s.dropped + [t.pair]
  {
  }

  /** What a step appends to the queue. */
  function Queued(s: System, e: Event, cfg: Config): seq<Task> {
    match e
    case Emit(event, hooks) => FirstAttempts(event, hooks[..Room(s, |hooks|, cfg)])
    case WakeUp(i) =>
      if i < |s.sleeping| && Room(s, 1, cfg) == 1
      then [Task(s.sleeping[i].pair, s.sleeping[i].attempt + 1)] else []
    case _ => []
  }

  /** All tasks that were queued during the run, and all that the dispatcher took, in order. */
  function QueuedLog(run: Run<Event>, cfg: Config): seq<Task> {
    match run
    case Start => []
    case Then(before, e) => QueuedLog(before, cfg) + Queued(After(IDLE, before, cfg), e, cfg)
  }

  function TakenLog(run: Run<Event>, cfg: Config): seq<Task> {
    match run
    case Start => []
    case Then(before, e) => TakenLog(before, cfg) + Taken(After(IDLE, before, cfg), e, cfg)
  }

  /** The task that is in flight after the dispatcher took one. */
  function Taken(s: System, e: Event, cfg: Config): seq<Task> {
    if e.Take? && Enabled(s, e) && Step(s, e, cfg).inFlight.Some? then [Step(s, e, cfg).inFlight.value] else []
  }

  lemma StepQueues(s: System, e: Event, cfg: Config)
    requires Enabled(s, e)
    ensures s.queue + Queued(s, e, cfg) == Taken(s, e, cfg) + Step(s, e, cfg).queue
  {
    match e
    case Emit(event, hooks) => EmissionFillsRoom(s, event, hooks, cfg);
    case WakeUp(i) => WakingTakesRoom(s, i, cfg);
    case Take => assert s.queue == [s.queue[0]] + s.queue[1..];
    case _ =>
  }

  lemma LogsGrow(before: Run<Event>, e: Event, cfg: Config)
    requires Possible(IDLE, Then(before, e), cfg)
    ensures var run, s := Then(before, e), After(IDLE, before, cfg);
            && Enabled(s, e) && After(IDLE, run, cfg) == Step(s, e, cfg)
            && QueuedLog(run, cfg) == QueuedLog(before, cfg) + Queued(s, e, cfg)
            && TakenLog(run, cfg) == TakenLog(before, cfg) + Taken(s, e, cfg)
  {
    hide Step, Queued, Taken, Enabled;
  }

  lemma Reassociated(log: seq<Task>, queue: seq<Task>, more: seq<Task>, taken: seq<Task>, rest: seq<Task>)
    requires queue + more == taken + rest
    ensures (log + queue) + more == (log + taken) + rest
  {
    assert (log + queue) + more == log + (queue + more);
    assert (log + taken) + rest == log + (taken + rest);
  }

  /** The dispatcher takes the tasks in the order in which they were queued. */
  lemma {:induction false} FirstInFirstOut(run: Run<Event>, cfg: Config)
    requires Possible(IDLE, run, cfg)
    ensures QueuedLog(run, cfg) == TakenLog(run, cfg) + After(IDLE, run, cfg).queue
  {
    if run.Then? {
      FirstInFirstOut(run.before, cfg);
      var s, e := After(IDLE, run.before, cfg), run.last;
      LogsGrow(run.before, e, cfg);
      StepQueues(s, e, cfg);
      Reassociated(TakenLog(run.before, cfg), s.queue, Queued(s, e, cfg), Taken(s, e, cfg), Step(s, e, cfg).queue);
      hide *;
    }
  }

  /** How often a post of the pair was answered without an error. */
  function Answered(run: Run<Event>, cfg: Config, p: Pair): nat {
    match run
    case Start => 0
    case Then(before, e) =>
      Answered(before, cfg, p) + (if Posts(After(IDLE, before, cfg), e, p) && e.ok then 1 else 0)
  }

  /** A pair is delivered exactly as often as a post of it was answered. */
  lemma {:induction false} DeliveredIsAnswered(run: Run<Event>, cfg: Config, p: Pair)
    requires Possible(IDLE, run, cfg)
    ensures CountPairs(After(IDLE, run, cfg).delivered, p) == Answered(run, cfg, p)
  {
    match run
    case Start =>
    case Then(before, e) =>
      DeliveredIsAnswered(before, cfg, p);
      var s := After(IDLE, before, cfg);
      hide CountPairs;
      StepDelivers(s, e, cfg, p);
  }

  lemma StepDelivers(s: System, e: Event, cfg: Config, p: Pair)
    requires Enabled(s, e)
    ensures CountPairs(Step(s, e, cfg).delivered, p)
         == CountPairs(s.delivered, p) + (if Posts(s, e, p) && e.ok then 1 else 0)
  {
    match e
    case Emit(event, hooks) => EmissionFillsRoom(s, event, hooks, cfg);
    case Posted(ok) => CountPairsAppend(s.delivered, s.inFlight.value.pair, p);
    case _ =>
  }

  /** A failed post puts the task to sleep while it has retries left, and nothing else does. */
  lemma FailedPostSleeps(s: System, cfg: Config)
    requires s.inFlight.Some?
    ensures var t, u := s.inFlight.value, Step(s, Posted(false), cfg);
            && u.inFlight == None && u.queue == s.queue && u.delivered == s.delivered
            && if t.attempt <= cfg.maxRetries then u.sleeping == s.sleeping + [t] && u.dropped == s.dropped
               else u.sleeping == s.sleeping && u.dropped == s.dropped + [t.pair]
  {
  }

  /** The delays are powers: d^0 is 1, d^1 is d, and exponents add up. */
  lemma {:induction false} PowersMultiply(d: nat, a: nat, b: nat)
    ensures Pow(d, 0) == 1 && Pow(d, 1) == d
    ensures Pow(d, a + b) == Pow(d, a) * Pow(d, b)
  {
    assert Pow(d, 1) == d * Pow(d, 0);
    if a > 0 {
      PowersMultiply(d, a - 1, b);
      Reassociate(d, Pow(d, a - 1), Pow(d, b));
    }
  }

  lemma Reassociate(x: int, y: int, z: int)
    ensures x * (y * z) == (x * y) * z
  {
  }

  lemma SleepSumStep(n: nat, cfg: Config)
    ensures SleepSum(0, cfg) == 0 && Pow(cfg.retryDelay, 1) == cfg.retryDelay
    ensures n > 0 ==> SleepSum(n, cfg) == SleepSum(n - 1, cfg) + Pow(cfg.retryDelay, n)
    ensures Pow(cfg.retryDelay, n + 1) == cfg.retryDelay * Pow(cfg.retryDelay, n)
  {
    assert Pow(cfg.retryDelay, 1) == cfg.retryDelay * Pow(cfg.retryDelay, 0);
  }

  lemma Expand(x: int, y: int, z: int)
    ensures (x - 1) * (y + z) == (x - 1) * y + x * z - z
  {
  }

  /** The whole sleep of a pair in closed form: a geometric sum. */
  lemma {:induction false} SleepSumClosed(n: nat, cfg: Config)
    ensures (cfg.retryDelay - 1) * SleepSum(n, cfg) == Pow(cfg.retryDelay, n + 1) - cfg.retryDelay
  {
    hide Pow, SleepSum;
    SleepSumStep(n, cfg);
    if n > 0 {
      SleepSumClosed(n - 1, cfg);
      Expand(cfg.retryDelay, SleepSum(n - 1, cfg), Pow(cfg.retryDelay, n));
    }
  }
}
