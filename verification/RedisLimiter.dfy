/**
 The Redis rate limiter: a Lua script over one sorted set per key. Member and score of an entry are both the time of
 the admission, so a sorted set is a set of instants.
 */
module RedisLimiter {
  import opened Outcomes
  import opened Runs
  import opened Timeline

  /** A sorted set and, once EXPIRE was called, the instant from which Redis may drop it. */
  datatype ZSet = ZSet(members: set<Time>, deadline: Option<Time>)

  datatype Answer = Answer(violated: bool, count: int)

  /**
   One call of check_rate_limit. The caller may be under a penalty, in which case the script is not run; and Redis may
   have dropped a set whose time to live has passed.
   */
  datatype Call = Call(now: Time, penalized: bool, dropped: bool)

  const EMPTY := ZSet({}, None)

  /** What the script finds: nothing if the set outlived its time to live and was dropped. */
  function Found(z: ZSet, c: Call): ZSet {
    if c.dropped && z.deadline.Some? && c.now >= z.deadline.value then EMPTY else z
  }

  /** ZREMRANGEBYSCORE key -inf cutoff */
  function DropUpTo(members: set<Time>, cutoff: Time): set<Time> {
    set t | t in members && t > cutoff
  }

  function RunScript(z: ZSet, limit: int, window: int, now: Time): (ZSet, Answer) {
    var kept := DropUpTo(z.members, now - window as real);
    if |kept| >= limit then (z.(members := kept), Answer(true, |kept|))
    else (ZSet(kept + {now}, Some(now + window as real)), Answer(false, |kept| + 1))
  }

  /** limit stands for the configured limit plus burst, which the script receives as one number. */
  function Step(z: ZSet, c: Call, limit: int, window: int): (ZSet, bool) {
    if c.penalized then (z, false)
    else
      var (z', answer) := RunScript(Found(z, c), limit, window, c.now);
      (z', !answer.violated)
  }

  class SortedSet {
    var members: set<Time>
    var deadline: Option<Time>

    constructor ()
      ensures members == {} && deadline == None
    {
      members, deadline := {}, None;
    }

    ghost function Contents(): ZSet
      reads this
    {
      ZSet(members, deadline)
    }

    method EvalSlidingWindow(limit: int, window: int, now: Time) returns (violated: bool, count: int)
      modifies this
      ensures (Contents(), Answer(violated, count)) == RunScript(old(Contents()), limit, window, now)
    {
      members := DropUpTo(members, now - window as real);
      var current := |members|;
      if current >= limit {
        return true, current;
      }
      members := members + {now};
      deadline := Some(now + window as real);
      return false, current + 1;
    }
  }

  // ---------------------------------------------------------------------------
  // Runs
  // ---------------------------------------------------------------------------

  /** The clock never goes back during the run and reads no more than now after it. */
  ghost predicate Clocked(run: Run<Call>, now: Time) {
    match run
    case Start => true
    case Then(before, c) => c.now <= now && Clocked(before, c.now)
  }

  function After(run: Run<Call>, limit: int, window: int): ZSet {
    match run
    case Start => EMPTY
    case Then(before, c) => Step(After(before, limit, window), c, limit, window).0
  }

  /** The whole history of admissions, oldest first. */
  function Admitted(run: Run<Call>, limit: int, window: int): seq<Time> {
    match run
    case Start => []
    case Then(before, c) =>
      var log := Admitted(before, limit, window);
      if Step(After(before, limit, window), c, limit, window).1 then log + [c.now] else log
  }

  /** The instants of the half-open interval (lo, hi] at which something was admitted. */
  function InstantsIn(log: seq<Time>, lo: Time, hi: Time): set<Time> {
    set t | t in log && lo < t <= hi
  }

  /** How many admissions lie in the half-open interval (lo, hi]. */
  function CountIn(log: seq<Time>, lo: Time, hi: Time): nat {
    if log == [] then 0
    else CountIn(log[..|log| - 1], lo, hi) + (if lo < log[|log| - 1] <= hi then 1 else 0)
  }

  // ---------------------------------------------------------------------------
  // Expiry
  // ---------------------------------------------------------------------------

  /** No entry of a set is younger than its time to live says. */
  ghost predicate DeadlineCovers(z: ZSet, window: int) {
    forall t :: t in z.members ==> z.deadline.Some? && t + window as real <= z.deadline.value
  }

  lemma {:induction false} DeadlineAlwaysCovers(run: Run<Call>, limit: int, window: int, now: Time)
    requires Clocked(run, now)
    ensures DeadlineCovers(After(run, limit, window), window)
    ensures forall t :: t in After(run, limit, window).members ==> t <= now
  {
    match run
    case Start =>
    case Then(before, c) => DeadlineAlwaysCovers(before, limit, window, c.now);
  }

  /** EXPIRE is never too early: when the time to live of the set has passed, pruning would remove every entry. */
  lemma ExpiryLosesNothing(run: Run<Call>, limit: int, window: int, c: Call)
    requires Clocked(run, c.now)
    ensures var z, cutoff := After(run, limit, window), c.now - window as real;
            DropUpTo(Found(z, c).members, cutoff) == DropUpTo(z.members, cutoff)
  {
    DeadlineAlwaysCovers(run, limit, window, c.now);
  }

  // ---------------------------------------------------------------------------
  // The stored set against the whole history
  // ---------------------------------------------------------------------------

  lemma StepMembership(z: ZSet, c: Call, limit: int, window: int, t: Time)
    requires var cutoff := c.now - window as real;
             t > cutoff && DropUpTo(Found(z, c).members, cutoff) == DropUpTo(z.members, cutoff)
    ensures var (after, admitted) := Step(z, c, limit, window);
            t in after.members <==> t in z.members || (admitted && t == c.now)
  {
    var cutoff := c.now - window as real;
    assert t in DropUpTo(z.members, cutoff) <==> t in z.members;
  }

  /** The set holds exactly the admission instants that a present or later window can reach, expired or not. */
  lemma {:induction false} StoredSetMatchesHistory(run: Run<Call>, limit: int, window: int, now: Time, t: Time)
    requires Clocked(run, now) && t > now - window as real
    ensures t in After(run, limit, window).members <==> t in Admitted(run, limit, window)
  {
    match run
    case Start =>
    case Then(before, c) =>
      StoredSetMatchesHistory(before, limit, window, c.now, t);
      ExpiryLosesNothing(before, limit, window, c);
      StepMembership(After(before, limit, window), c, limit, window, t);
  }

  lemma {:induction false} AdmittedUpTo(run: Run<Call>, limit: int, window: int, now: Time)
    requires Clocked(run, now)
    ensures UpTo(Admitted(run, limit, window), now)
  {
    match run
    case Start =>
    case Then(before, c) => AdmittedUpTo(before, limit, window, c.now);
  }

  /** The script's decision in terms of the history: full means limit distinct instants in (now - window, now]. */
  lemma DeniedExactlyWhenWindowIsFull(run: Run<Call>, c: Call, limit: int, window: int)
    requires Clocked(run, c.now) && !c.penalized
    ensures var recent := |InstantsIn(Admitted(run, limit, window), c.now - window as real, c.now)|;
            var answer := RunScript(Found(After(run, limit, window), c), limit, window, c.now).1;
            && (answer.violated <==> recent >= limit)
            && answer.count == (if answer.violated then recent else recent + 1)
  {
    var z, log, cutoff := After(run, limit, window), Admitted(run, limit, window), c.now - window as real;
    ExpiryLosesNothing(run, limit, window, c);
    AdmittedUpTo(run, limit, window, c.now);
    forall t | t > cutoff
      ensures t in z.members <==> t in log
    {
      StoredSetMatchesHistory(run, limit, window, c.now, t);
    }
    assert DropUpTo(z.members, cutoff) == InstantsIn(log, cutoff, c.now);
  }

  // ---------------------------------------------------------------------------
  // The bound
  // ---------------------------------------------------------------------------

  lemma {:induction false} SubsetSize<T>(a: set<T>, b: set<T>)
    requires a <= b
    ensures |a| <= |b|
  {
    if a != {} {
      var x :| x in a;
      SubsetSize(a - {x}, b - {x});
    }
  }

  lemma InstantsAppend(log: seq<Time>, t: Time, lo: Time, hi: Time)
    ensures InstantsIn(log + [t], lo, hi) == InstantsIn(log, lo, hi) + (if lo < t <= hi then {t} else {})
    ensures CountIn(log + [t], lo, hi) == CountIn(log, lo, hi) + (if lo < t <= hi then 1 else 0)
  {
    assert (log + [t])[..|log|] == log;
  }

  /** In every run, no half-open interval of the window's length holds admissions at more than limit instants. */
  lemma {:induction false} InstantBound(run: Run<Call>, limit: nat, window: int, now: Time, from: Time)
    requires Clocked(run, now)
    ensures |InstantsIn(Admitted(run, limit, window), from, from + window as real)| <= limit
  {
    var to := from + window as real;
    match run
    case Start => assert InstantsIn([], from, to) == {};
    case Then(before, c) =>
      InstantBound(before, limit, window, c.now, from);
      var log := Admitted(before, limit, window);
      InstantsAppend(log, c.now, from, to);
      if Step(After(before, limit, window), c, limit, window).1 && from < c.now <= to {
        // The interval starts inside the window that the request was admitted into.
        DeniedExactlyWhenWindowIsFull(before, c, limit, window);
        AdmittedUpTo(before, limit, window, c.now);
        SubsetSize(InstantsIn(log, from, to), InstantsIn(log, c.now - window as real, c.now));
      }
  }

  ghost predicate Bounded(run: Run<Call>, limit: int, window: int) {
    forall from: Time, to: Time ::
      to == from + window as real ==> CountIn(Admitted(run, limit, window), from, to) <= limit
  }

  /** Whenever a request is admitted, no earlier one was admitted at the same instant. */
  ghost predicate DistinctAdmissions(run: Run<Call>, limit: int, window: int) {
    match run
    case Start => true
    case Then(before, c) =>
      && DistinctAdmissions(before, limit, window)
      && (Step(After(before, limit, window), c, limit, window).1 ==> c.now !in Admitted(before, limit, window))
  }

  lemma {:induction false} DistinctCount(run: Run<Call>, limit: int, window: int, lo: Time, hi: Time)
    requires DistinctAdmissions(run, limit, window)
    ensures CountIn(Admitted(run, limit, window), lo, hi) == |InstantsIn(Admitted(run, limit, window), lo, hi)|
  {
    match run
    case Start => assert InstantsIn([], lo, hi) == {};
    case Then(before, c) =>
      DistinctCount(before, limit, window, lo, hi);
      InstantsAppend(Admitted(before, limit, window), c.now, lo, hi);
  }

  lemma DistinctAdmissionsBounded(run: Run<Call>, limit: nat, window: int, now: Time)
    requires Clocked(run, now) && DistinctAdmissions(run, limit, window)
    ensures Bounded(run, limit, window)
  {
    forall from: Time, to: Time | to == from + window as real
      ensures CountIn(Admitted(run, limit, window), from, to) <= limit
    {
      InstantBound(run, limit, window, now, from);
      DistinctCount(run, limit, window, from, to);
    }
  }

  /** The clock advances between any two calls. */
  ghost predicate Ticking(run: Run<Call>) {
    match run
    case Start => true
    case Then(before, c) => Ticking(before) && (before.Then? ==> before.last.now < c.now)
  }

  lemma {:induction false} TickingIsDistinct(run: Run<Call>, limit: int, window: int)
    requires Ticking(run)
    ensures DistinctAdmissions(run, limit, window)
    ensures run.Then? ==> Clocked(run, run.last.now)
  {
    match run
    case Start =>
    case Then(before, c) =>
      TickingIsDistinct(before, limit, window);
      if before.Then? {
        AdmittedUpTo(before, limit, window, before.last.now);
      }
  }

  /** With distinct timestamps the script keeps the bound on every half-open interval of the window's length. */
  lemma BoundedWhenTimesDistinct(run: Run<Call>, limit: nat, window: int)
    requires Ticking(run)
    ensures Bounded(run, limit, window)
  {
    TickingIsDistinct(run, limit, window);
    DistinctAdmissionsBounded(run, limit, window, if run.Then? then run.last.now else 0.0);
  }

  // ---------------------------------------------------------------------------
  // Equal timestamps
  // ---------------------------------------------------------------------------

  /** n unpenalised requests at instant 0. */
  function Burst(n: nat): Run<Call> {
    if n == 0 then Start else Then(Burst(n - 1), Call(0.0, false, false))
  }

  lemma RepeatedInstant(z: ZSet, limit: int, window: int)
    requires limit >= 2 && window >= 1 && z.members <= {0.0}
    ensures var (after, admitted) := Step(z, Call(0.0, false, false), limit, window);
            admitted && after.members == {0.0}
  {
    SubsetSize(z.members, {0.0});
    assert DropUpTo(z.members, 0.0 - window as real) == z.members;
  }

  /** Requests at one instant overwrite each other in the set: with limit 2 or more, all of them are admitted. */
  lemma {:induction false} BurstIsAdmitted(n: nat, limit: int, window: int)
    requires limit >= 2 && window >= 1
    ensures Clocked(Burst(n), 0.0)
    ensures After(Burst(n), limit, window).members == (if n == 0 then {} else {0.0})
    ensures CountIn(Admitted(Burst(n), limit, window), -(window as real), 0.0) == n
  {
    if n > 0 {
      BurstIsAdmitted(n - 1, limit, window);
      RepeatedInstant(After(Burst(n - 1), limit, window), limit, window);
      InstantsAppend(Admitted(Burst(n - 1), limit, window), 0.0, -(window as real), 0.0);
    }
  }

  /** With a limit of one, a second admission at the same instant is refused. */
  lemma {:induction false} LimitOneIsDistinct(run: Run<Call>, limit: nat, window: int, now: Time)
    requires Clocked(run, now) && limit <= 1 && window >= 1
    ensures DistinctAdmissions(run, limit, window)
  {
    match run
    case Start =>
    case Then(before, c) =>
      LimitOneIsDistinct(before, limit, window, c.now);
      if !c.penalized {
        DeniedExactlyWhenWindowIsFull(before, c, limit, window);
        var log := Admitted(before, limit, window);
        assert c.now in log ==> c.now in InstantsIn(log, c.now - window as real, c.now);
      }
  }

  /** Without an assumption on timestamps, the bound holds in all runs exactly for a limit of at most one. */
  lemma BoundedWithEqualTimesIffLimitOne(limit: nat, window: int)
    requires window >= 1
    ensures (forall run: Run<Call>, now: Time :: Clocked(run, now) ==> Bounded(run, limit, window)) <==> limit <= 1
  {
    if limit <= 1 {
      forall run, now | Clocked(run, now)
        ensures Bounded(run, limit, window)
      {
        LimitOneIsDistinct(run, limit, window, now);
        DistinctAdmissionsBounded(run, limit, window, now);
      }
    } else {
      var run, now := Burst(limit + 1), 0.0;
      BurstIsAdmitted(limit + 1, limit, window);
      assert now == -(window as real) + window as real;
      assert CountIn(Admitted(run, limit, window), -(window as real), now) > limit;
      assert exists r: Run<Call>, n: Time :: Clocked(r, n) && !Bounded(r, limit, window);
    }
  }

  // ---------------------------------------------------------------------------
  // The time to live
  // ---------------------------------------------------------------------------

  /** The time to live is renewed with every admission to exactly one window, and by nothing else. */
  lemma {:induction false} DeadlineIsLastAdmission(run: Run<Call>, limit: int, window: int)
    ensures var z, log := After(run, limit, window), Admitted(run, limit, window);
            z.deadline.Some? ==> |log| > 0 && z.deadline.value == log[|log| - 1] + window as real
  {
    match run
    case Start =>
    case Then(before, c) => DeadlineIsLastAdmission(before, limit, window);
  }

  /** From the deadline on Redis may drop the whole set, and not before. */
  lemma DroppedOnlyFromDeadline(z: ZSet, c: Call)
    ensures c.dropped && z.deadline.Some? && z.deadline.value <= c.now ==> Found(z, c) == EMPTY
    ensures !c.dropped || z.deadline == None || c.now < z.deadline.value ==> Found(z, c) == z
  {
  }
}
