/** Clock readings and counts of instants. */
module Timeline {

  type Time = real

  /** How many instants of the log lie in the closed interval [lo, hi]. */
  function Within(log: seq<Time>, lo: Time, hi: Time): (n: nat)
    ensures n <= |log|
  {
    if log == [] then 0
    else Within(log[..|log| - 1], lo, hi) + (if lo <= log[|log| - 1] <= hi then 1 else 0)
  }

  /** How many instants of the log are at or after lo. */
  function Since(log: seq<Time>, lo: Time): (n: nat)
    ensures n <= |log|
  {
    if log == [] then 0
    else Since(log[..|log| - 1], lo) + (if lo <= log[|log| - 1] then 1 else 0)
  }

  ghost predicate UpTo(log: seq<Time>, clock: Time) {
    forall i :: 0 <= i < |log| ==> log[i] <= clock
  }

  ghost predicate Sorted(log: seq<Time>) {
    forall i, j :: 0 <= i < j < |log| ==> log[i] <= log[j]
  }

  lemma WithinAppend(log: seq<Time>, t: Time, lo: Time, hi: Time)
    ensures Within(log + [t], lo, hi) == Within(log, lo, hi) + (if lo <= t <= hi then 1 else 0)
  {
    assert (log + [t])[..|log|] == log;
  }

  lemma SinceAppend(log: seq<Time>, t: Time, lo: Time)
    ensures Since(log + [t], lo) == Since(log, lo) + (if lo <= t then 1 else 0)
  {
    assert (log + [t])[..|log|] == log;
  }

  /** An interval that starts no earlier than `from` holds no more instants than there are since `from`. */
  lemma {:induction false} WithinAtMostSince(log: seq<Time>, lo: Time, hi: Time, from: Time)
    requires from <= lo
    ensures Within(log, lo, hi) <= Since(log, from)
  {
    if log != [] {
      WithinAtMostSince(log[..|log| - 1], lo, hi, from);
    }
  }

  /** Up to the clock, counting since lo is counting within [lo, clock]. */
  lemma {:induction false} SinceIsWithin(log: seq<Time>, lo: Time, clock: Time)
    requires UpTo(log, clock)
    ensures Since(log, lo) == Within(log, lo, clock)
  {
    if log != [] {
      SinceIsWithin(log[..|log| - 1], lo, clock);
    }
  }

  /** Instants before position i of the log that are earlier than lo do not count. */
  lemma {:induction false} WithinSuffix(log: seq<Time>, i: nat, lo: Time, hi: Time)
    requires i <= |log|
    requires forall j :: 0 <= j < i ==> log[j] < lo
    ensures Within(log, lo, hi) <= |log| - i
  {
    if |log| > i {
      WithinSuffix(log[..|log| - 1], i, lo, hi);
    } else if log != [] {
      WithinSuffix(log[..|log| - 1], i - 1, lo, hi);
    }
  }
}
