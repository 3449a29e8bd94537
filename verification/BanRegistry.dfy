/** Bans: a table, two caches in front of it, and deletions of expired bans that are scheduled when one is looked up. */
module BanRegistry {
  import opened Outcomes
  import opened Runs
  import opened Timeline

  datatype Kind = Ip | Key

  datatype Entity = Entity(kind: Kind, id: string)

  datatype Ban = Ban(reason: string, expiresAt: Option<Time>)

  datatype Registry = Registry(
    ips: map<string, Ban>, keys: map<string, Ban>, table: map<Entity, Ban>, pending: multiset<Entity>)

  const EMPTY := Registry(map[], map[], map[], multiset{})

  predicate Expired(b: Ban, now: Time) {
    b.expiresAt.Some? && now > b.expiresAt.value
  }

  /** A missing duration and a duration of zero both mean forever. */
  function Expiry(duration: Option<int>, now: Time): Option<Time> {
    if duration.Some? && duration.value != 0 then Some(now + duration.value as real) else None
  }

  function CacheOf(r: Registry, kind: Kind): map<string, Ban> {
    match kind
    case Ip => r.ips
    case Key => r.keys
  }

  predicate Cached(r: Registry, e: Entity) {
    e.id in CacheOf(r, e.kind)
  }

  function Entry(r: Registry, e: Entity): Ban
    requires Cached(r, e)
  {
    CacheOf(r, e.kind)[e.id]
  }

  function PutEntry(r: Registry, e: Entity, b: Ban): Registry {
    match e.kind
    case Ip => r.(ips := r.ips[e.id := b])
    case Key => r.(keys := r.keys[e.id := b])
  }

  function PopEntry(r: Registry, e: Entity): Registry {
    match e.kind
    case Ip => r.(ips := r.ips - {e.id})
    case Key => r.(keys := r.keys - {e.id})
  }

  function Impose(r: Registry, e: Entity, b: Ban): Registry {
    PutEntry(r.(table := r.table[e := b]), e, b)
  }

  function Lift(r: Registry, e: Entity): Registry {
    if e in r.table then PopEntry(r.(table := r.table - {e}), e) else r
  }

  /** Looking an entity up: an expired entry is dropped from the cache and its deletion scheduled. */
  function Look(r: Registry, e: Entity, now: Time): Registry {
    if Cached(r, e) && Expired(Entry(r, e), now)
    then PopEntry(r.(pending := r.pending + multiset{e}), e)
    else r
  }

  /** The answer of a lookup: the reason, if the entity is banned. */
  function Verdict(r: Registry, e: Entity, now: Time): Option<string> {
    if Cached(r, e) && !Expired(Entry(r, e), now) then Some(Entry(r, e).reason) else None
  }

  function Loaded(table: map<Entity, Ban>, kind: Kind, now: Time): map<string, Ban> {
    map e | e in table && e.kind == kind && !Expired(table[e], now) :: e.id := table[e]
  }

  lemma LoadedEntries(table: map<Entity, Ban>, kind: Kind, id: string, now: Time)
    ensures id in Loaded(table, kind, now)
       <==> Entity(kind, id) in table && !Expired(table[Entity(kind, id)], now)
    ensures id in Loaded(table, kind, now) ==> Loaded(table, kind, now)[id] == table[Entity(kind, id)]
  {
    if Entity(kind, id) in table && !Expired(table[Entity(kind, id)], now) {
      assert Entity(kind, id).id in Loaded(table, kind, now);
    }
  }

  lemma LoadedInsert(table: map<Entity, Ban>, row: Entity, b: Ban, kind: Kind, now: Time)
    requires row !in table
    ensures Loaded(table[row := b], kind, now)
         == if row.kind == kind && !Expired(b, now) then Loaded(table, kind, now)[row.id := b]
            else Loaded(table, kind, now)
  {
    var more := table[row := b];
    var expected := if row.kind == kind && !Expired(b, now) then Loaded(table, kind, now)[row.id := b]
                    else Loaded(table, kind, now);
    forall id
      ensures id in Loaded(more, kind, now) <==> id in expected
      ensures id in expected ==> Loaded(more, kind, now)[id] == expected[id]
    {
      LoadedEntries(table, kind, id, now);
      LoadedEntries(more, kind, id, now);
    }
  }

  function Reload(r: Registry, now: Time): Registry {
    r.(ips := Loaded(r.table, Ip, now), keys := Loaded(r.table, Key, now))
  }

  // ---------------------------------------------------------------------------
  // The storage class
  // ---------------------------------------------------------------------------

  class SecurityStorage {
    var bansCacheIp: map<string, Ban>
    var bansCacheKey: map<string, Ban>
    var bans: map<Entity, Ban>
    var pending: multiset<Entity>

    constructor ()
      ensures Contents() == EMPTY
    {
      bansCacheIp, bansCacheKey, bans, pending := map[], map[], map[], multiset{};
    }

    ghost function Contents(): Registry
      reads this
    {
      Registry(bansCacheIp, bansCacheKey, bans, pending)
    }

    method BanEntity(e: Entity, reason: string, duration: Option<int>, now: Time)
      modifies this
      ensures Contents() == Impose(old(Contents()), e, Ban(reason, Expiry(duration, now)))
    {
      var expiresAt := None;
      if duration.Some? && duration.value != 0 {
        expiresAt := Some(now + duration.value as real);
      }
      var entry := Ban(reason, expiresAt);
      bans := bans[e := entry];
      if e.kind == Ip {
        bansCacheIp := bansCacheIp[e.id := entry];
      } else {
        bansCacheKey := bansCacheKey[e.id := entry];
      }
    }

    method UnbanEntity(e: Entity) returns (removed: bool)
      modifies this
      ensures removed == (e in old(bans))
      ensures Contents() == Lift(old(Contents()), e)
    {
      removed := e in bans;
      if removed {
        bans := bans - {e};
        if e.kind == Ip {
          bansCacheIp := bansCacheIp - {e.id};
        } else {
          bansCacheKey := bansCacheKey - {e.id};
        }
      }
    }

    method CheckBan(e: Entity, now: Time) returns (banned: bool, reason: Option<string>)
      modifies this
      ensures reason == Verdict(old(Contents()), e, now) && banned == reason.Some?
      ensures Contents() == Look(old(Contents()), e, now)
    {
      var cache := if e.kind == Ip then bansCacheIp else bansCacheKey;
      if e.id !in cache {
        return false, None;
      }
      var entry := cache[e.id];
      if entry.expiresAt.Some? && now > entry.expiresAt.value {
        if e.kind == Ip {
          bansCacheIp := bansCacheIp - {e.id};
        } else {
          bansCacheKey := bansCacheKey - {e.id};
        }
        pending := pending + multiset{e};
        return false, None;
      }
      return true, Some(entry.reason);
    }

    method LoadBans(now: Time)
      modifies this
      ensures Contents() == Reload(old(Contents()), now)
    {
      bansCacheIp, bansCacheKey := map[], map[];
      var rows := bans.Keys;
      while rows != {}
        invariant rows <= bans.Keys && bans == old(bans) && pending == old(pending)
        invariant bansCacheIp == Loaded(bans - rows, Ip, now)
        invariant bansCacheKey == Loaded(bans - rows, Key, now)
        decreases rows
      {
        var row :| row in rows;
        var seen := bans - rows;
        rows := rows - {row};
        assert bans - rows == seen[row := bans[row]];
        LoadedInsert(seen, row, bans[row], Ip, now);
        LoadedInsert(seen, row, bans[row], Key, now);
        if Expired(bans[row], now) {
          continue;
        }
        if row.kind == Ip {
          bansCacheIp := bansCacheIp[row.id := bans[row]];
        } else {
          bansCacheKey := bansCacheKey[row.id := bans[row]];
        }
      }
      assert bans - rows == bans;
    }
  }

  // ---------------------------------------------------------------------------
  // Runs
  // ---------------------------------------------------------------------------

  datatype Event =
    | BanCall(entity: Entity, reason: string, duration: Option<int>, now: Time)
    | UnbanCall(entity: Entity, now: Time)
    | CheckCall(entity: Entity, now: Time)
    | LazyUnban(entity: Entity, now: Time)   // a scheduled deletion runs
    | ReloadCaches(now: Time)

  function Step(r: Registry, e: Event): Registry {
    match e
    case BanCall(entity, reason, duration, now) => Impose(r, entity, Ban(reason, Expiry(duration, now)))
    case UnbanCall(entity, _) => Lift(r, entity)
    case CheckCall(entity, now) => Look(r, entity, now)
    case LazyUnban(entity, _) =>
      if entity in r.pending then Lift(r.(pending := r.pending - multiset{entity}), entity) else r
    case ReloadCaches(now) => Reload(r, now)
  }

  function After(r: Registry, run: Run<Event>): Registry {
    match run
    case Start => r
    case Then(before, e) => Step(After(r, before), e)
  }

  /** The clock never goes back during the run and reads no more than now after it. */
  ghost predicate Clocked(run: Run<Event>, now: Time) {
    match run
    case Start => true
    case Then(before, e) => e.now <= now && Clocked(before, e.now)
  }

  // ---------------------------------------------------------------------------
  // Agreement of the caches with the table
  // ---------------------------------------------------------------------------

  /** A cached ban is the row in the table, and a row that is not cached has expired. */
  ghost predicate AgreesOn(r: Registry, e: Entity, now: Time) {
    if Cached(r, e) then e in r.table && r.table[e] == Entry(r, e)
    else e in r.table ==> Expired(r.table[e], now)
  }

  ghost predicate Agrees(r: Registry, now: Time) {
    forall e :: AgreesOn(r, e, now)
  }

  lemma LiftAgrees(r: Registry, lifted: Entity, x: Entity, now: Time)
    requires AgreesOn(r, x, now)
    ensures AgreesOn(Lift(r, lifted), x, now)
  {
  }

  lemma ImposeAgrees(r: Registry, banned: Entity, b: Ban, x: Entity, now: Time)
    requires AgreesOn(r, x, now)
    ensures AgreesOn(Impose(r, banned, b), x, now)
  {
  }

  lemma LookAgrees(r: Registry, looked: Entity, x: Entity, now: Time)
    requires AgreesOn(r, x, now)
    ensures AgreesOn(Look(r, looked, now), x, now)
  {
  }

  lemma StepAgreesOn(r: Registry, e: Event, x: Entity)
    requires AgreesOn(r, x, e.now)
    ensures AgreesOn(Step(r, e), x, e.now)
  {
    match e
    case BanCall(entity, reason, duration, now) => ImposeAgrees(r, entity, Ban(reason, Expiry(duration, now)), x, now);
    case UnbanCall(entity, now) => LiftAgrees(r, entity, x, now);
    case CheckCall(entity, now) => LookAgrees(r, entity, x, now);
    case LazyUnban(entity, now) => LiftAgrees(r.(pending := r.pending - multiset{entity}), entity, x, now);
    case ReloadCaches(now) => LoadedEntries(r.table, x.kind, x.id, now);
  }

  /** In every run of atomic steps the caches agree with the table. */
  lemma {:induction false} AgreesAlways(r: Registry, run: Run<Event>, start: Time, now: Time)
    requires Clocked(run, now) && Agrees(r, start) && start <= now && Following(run, start)
    ensures Agrees(After(r, run), now)
  {
    match run
    case Start => assert forall x :: AgreesOn(r, x, start) ==> AgreesOn(r, x, now);
    case Then(before, e) =>
      AgreesAlways(r, before, start, e.now);
      forall x: Entity
        ensures AgreesOn(After(r, run), x, now)
      {
        StepAgreesOn(After(r, before), e, x);
      }
  }

  ghost predicate Following(run: Run<Event>, start: Time) {
    match run
    case Start => true
    case Then(before, e) => start <= e.now && Following(before, start)
  }

  /** What scanning the table would answer. */
  function TableVerdict(table: map<Entity, Ban>, e: Entity, now: Time): Option<string> {
    if e in table && !Expired(table[e], now) then Some(table[e].reason) else None
  }

  /** check_ban, which only looks at the cache, gives the verdict of the table in every reachable state. */
  lemma {:induction false} CheckEqualsTableScan(run: Run<Event>, start: Time, e: Entity, now: Time)
    requires Clocked(run, now) && Following(run, start) && start <= now
    ensures var r := After(EMPTY, run);
            Verdict(r, e, now) == TableVerdict(r.table, e, now)
  {
    AgreesAlways(EMPTY, run, start, now);
    assert AgreesOn(After(EMPTY, run), e, now);
  }

  // ---------------------------------------------------------------------------
  // How long a ban lasts
  // ---------------------------------------------------------------------------

  /** Nobody bans or unbans the entity during the run; lookups, reloads and scheduled deletions may happen. */
  ghost predicate LeftAlone(run: Run<Event>, e: Entity) {
    match run
    case Start => true
    case Then(before, event) =>
      LeftAlone(before, e) && !((event.BanCall? || event.UnbanCall?) && event.entity == e)
  }

  /** The ban is in table and cache, has not expired, and no deletion of its entity is scheduled. */
  ghost predicate Secure(r: Registry, e: Entity, b: Ban) {
    && e in r.table && r.table[e] == b
    && Cached(r, e) && Entry(r, e) == b
    && e !in r.pending
  }

  lemma {:induction false} SecureStays(r: Registry, run: Run<Event>, e: Entity, b: Ban, now: Time)
    requires Secure(r, e, b) && LeftAlone(run, e) && Clocked(run, now) && !Expired(b, now)
    ensures Secure(After(r, run), e, b)
  {
    match run
    case Start =>
    case Then(before, event) =>
      SecureStays(r, before, e, b, event.now);
      var s := After(r, before);
      if event.ReloadCaches? {
        LoadedEntries(s.table, e.kind, e.id, event.now);
      } else if event.LazyUnban? {
        LazyUnbanElsewhere(s, event, e, b);
      }
  }

  lemma LazyUnbanElsewhere(r: Registry, event: Event, e: Entity, b: Ban)
    requires event.LazyUnban? && Secure(r, e, b)
    ensures Secure(Step(r, event), e, b)
  {
    if event.entity in r.pending {
      assert event.entity != e;
    }
  }

  /** The ban of e at `now` is still in force at `later`, however lookups, reloads and deletions are interleaved. */
  ghost predicate Lasts(r: Registry, e: Entity, b: Ban) {
    forall run: Run<Event>, later: Time :: LeftAlone(run, e) && Clocked(run, later) && !Expired(b, later)
      ==> Verdict(After(Impose(r, e, b), run), e, later) == Some(b.reason)
  }

  /**
   A ban lasts until its expiry, in every continuation in which nobody bans or unbans its entity again, if and only if
   no deletion of the entity is scheduled when it is imposed: an earlier lookup of an expired ban may still remove it.
   */
  lemma BanLastsIffNoDeletionScheduled(r: Registry, e: Entity, b: Ban, now: Time)
    requires !Expired(b, now)
    ensures Lasts(r, e, b) <==> e !in r.pending
  {
    var s := Impose(r, e, b);
    if e !in r.pending {
      forall run: Run<Event>, later: Time | LeftAlone(run, e) && Clocked(run, later) && !Expired(b, later)
        ensures Verdict(After(s, run), e, later) == Some(b.reason)
      {
        SecureStays(s, run, e, b, later);
      }
    } else {
      var run := Then(Start, LazyUnban(e, now));
      assert After(s, run) == Step(After(s, Start), LazyUnban(e, now));
      assert LeftAlone(Start, e) && LeftAlone(run, e) && Clocked(Start, now) && Clocked(run, now);
      assert Verdict(After(s, run), e, now) == None;
    }
  }

  /** A ban of one second, looked up a second too late: the deletion is scheduled but has not run. */
  function ExpiredLookup(e: Entity): Run<Event> {
    Then(Then(Start, BanCall(e, "first", Some(1), 0.0)), CheckCall(e, 2.0))
  }

  /** So the bad case happens: after this run no new ban of the entity is sure to last, whatever its expiry. */
  lemma BanMayEndEarly(e: Entity, b: Ban, now: Time)
    requires now >= 2.0 && !Expired(b, now)
    ensures Clocked(ExpiredLookup(e), now)
    ensures var r := After(EMPTY, ExpiredLookup(e)); e in r.pending && !Lasts(r, e, b)
  {
    var first := Then(Start, BanCall(e, "first", Some(1), 0.0));
    var banned := Step(EMPTY, BanCall(e, "first", Some(1), 0.0));
    assert After(EMPTY, Start) == EMPTY && After(EMPTY, first) == banned;
    assert Cached(banned, e) && Entry(banned, e).expiresAt == Some(1.0);
    assert After(EMPTY, ExpiredLookup(e)) == Look(banned, e, 2.0);
    assert Clocked(Start, 0.0) && Clocked(first, 2.0);
    BanLastsIffNoDeletionScheduled(After(EMPTY, ExpiredLookup(e)), e, b, now);
  }

  // ---------------------------------------------------------------------------
  // A ban from its call to its expiry
  // ---------------------------------------------------------------------------

  /** Table and cache hold nothing else for the entity than this ban. */
  ghost predicate Only(r: Registry, e: Entity, b: Ban) {
    (e in r.table ==> r.table[e] == b) && (Cached(r, e) ==> Entry(r, e) == b)
  }

  lemma StepKeepsOnly(r: Registry, event: Event, e: Entity, b: Ban)
    requires Only(r, e, b) && !((event.BanCall? || event.UnbanCall?) && event.entity == e)
    ensures Only(Step(r, event), e, b)
  {
    match event
    case BanCall(entity, reason, duration, now) => OthersKeepOnly(r, entity, Ban(reason, Expiry(duration, now)), e, b);
    case UnbanCall(entity, _) => LiftKeepsOnly(r, entity, e, b);
    case CheckCall(entity, now) => LookKeepsOnly(r, entity, now, e, b);
    case LazyUnban(entity, _) =>
      if entity in r.pending {
        LiftKeepsOnly(r.(pending := r.pending - multiset{entity}), entity, e, b);
      }
    case ReloadCaches(now) => LoadedEntries(r.table, e.kind, e.id, now);
  }

  lemma OthersKeepOnly(r: Registry, entity: Entity, other: Ban, e: Entity, b: Ban)
    requires Only(r, e, b) && entity != e
    ensures Only(Impose(r, entity, other), e, b)
  {
  }

  lemma LiftKeepsOnly(r: Registry, entity: Entity, e: Entity, b: Ban)
    requires Only(r, e, b)
    ensures Only(Lift(r, entity), e, b)
  {
  }

  lemma LookKeepsOnly(r: Registry, entity: Entity, now: Time, e: Entity, b: Ban)
    requires Only(r, e, b)
    ensures Only(Look(r, entity, now), e, b)
  {
  }

  lemma {:induction false} OnlyStays(r: Registry, run: Run<Event>, e: Entity, b: Ban)
    requires Only(r, e, b) && LeftAlone(run, e)
    ensures Only(After(r, run), e, b)
  {
    match run
    case Start =>
    case Then(before, event) =>
      OnlyStays(r, before, e, b);
      hide Step, Only;
      StepKeepsOnly(After(r, before), event, e, b);
  }

  /**
   A ban without a deletion scheduled for its entity is in force from its call exactly until its duration is over, and
   for ever without one or with a duration of zero, however lookups, reloads and deletions are interleaved.
   */
  lemma BanHoldsForItsDuration(
      r: Registry, e: Entity, reason: string, duration: Option<int>, t0: Time, run: Run<Event>, later: Time)
    requires e !in r.pending && LeftAlone(run, e) && Clocked(run, later)
    ensures Verdict(After(Step(r, BanCall(e, reason, duration, t0)), run), e, later)
         == if duration == None || duration == Some(0) || later <= t0 + duration.value as real then Some(reason)
            else None
  {
    var u := Step(r, BanCall(e, reason, duration, t0));
    var b := Ban(reason, Expiry(duration, t0));
    if Expired(b, later) {
      OnlyStays(u, run, e, b);
    } else {
      SecureStays(u, run, e, b, later);
    }
  }

  /** Lifting a ban removes row and entry of its entity and touches nothing else; without a row nothing happens. */
  lemma LiftRemoves(r: Registry, e: Entity, x: Entity)
    ensures e !in Lift(r, e).table && (e !in r.table ==> Lift(r, e) == r)
    ensures e in r.table ==> !Cached(Lift(r, e), e)
    ensures x != e ==>
              && (x in Lift(r, e).table <==> x in r.table) && (x in r.table ==> Lift(r, e).table[x] == r.table[x])
              && (Cached(Lift(r, e), x) <==> Cached(r, x)) && (Cached(r, x) ==> Entry(Lift(r, e), x) == Entry(r, x))
  {
  }

  /** How often a lookup scheduled a deletion of the entity, and how often one ran. */
  function Scheduled(r: Registry, run: Run<Event>, e: Entity): nat {
    match run
    case Start => 0
    case Then(before, event) =>
      var s := After(r, before);
      Scheduled(r, before, e)
      + (if event.CheckCall? && event.entity == e && Cached(s, e) && Expired(Entry(s, e), event.now) then 1 else 0)
  }

  function Ran(r: Registry, run: Run<Event>, e: Entity): nat {
    match run
    case Start => 0
    case Then(before, event) =>
      Ran(r, before, e)
      + (if event.LazyUnban? && event.entity == e && e in After(r, before).pending then 1 else 0)
  }

  lemma StepSchedules(r: Registry, event: Event, e: Entity)
    ensures var looked := event.CheckCall? && event.entity == e && Cached(r, e) && Expired(Entry(r, e), event.now);
            Step(r, event).pending[e] + (if event.LazyUnban? && event.entity == e && e in r.pending then 1 else 0)
            == r.pending[e] + (if looked then 1 else 0)
  {
    hide Loaded, Expiry;
  }

  /** Every scheduled deletion runs at most once. */
  lemma {:induction false} DeletionsRunOnce(r: Registry, run: Run<Event>, e: Entity)
    ensures After(r, run).pending[e] + Ran(r, run, e) == r.pending[e] + Scheduled(r, run, e)
  {
    match run
    case Start =>
    case Then(before, event) =>
      DeletionsRunOnce(r, before, e);
      hide Step, Cached, Expired, Entry;
      StepSchedules(After(r, before), event, e);
  }
}
