# A verified model of the NexusGate core

This project models the stateful and algorithmic core of the NexusGate gateway in Dafny and proves what each part
guarantees over whole runs and for all inputs. It models the rate limiters, the compiler from JSON filters to SQL,
the circuit breaker with its delayed writes, the ban registry, chunked uploads, webhook delivery, the federation
poller, byte-range streaming, the directory walks and size text.

`dafny verify dfyconfig.toml` checks everything. Nothing was executed: the results are proofs about the model.

## How it is organised

Code that changes state is a class whose methods follow the source statement by statement. Each method is proved equal
to a step function, and the theorems are about those functions along a `Run`: any sequence of events, built up one event
at a time (`Runs.dfy`). Time is a clock reading of type `real` that comes with each event. Input and output, the network
and cryptography are parameters or are absent.

| file | component |
|---|---|
| SqliteLimiter, RedisLimiter, MemoryLimiter, Timeline | the three rate limiters |
| RateKeys | their cache keys as text |
| SqlPredicates, ParamNames, FilterBuilder, FilterMeaning, Statements | filters to SQL: predicates, names, builder, meaning, statements |
| SqlText, FilterText | the same clauses as text |
| CircuitBreaker, CircuitPersistence | the circuit breaker: steps and invariant, what is written and reloaded |
| CircuitTasks, CircuitTrips, CircuitHealing | writes and loads under way, and what trips and heals make of them |
| BanRegistry | bans in front of their table |
| ChunkPlan, ChunkedUpload | chunked uploads |
| WebhookRules, WebhookQueue, Federation | webhook matching and delivery, the federation poller |
| RangeStreaming, DirectoryWalk, SizeText | loops with a mathematical specification |
| Decimal, Texts, Files, Runs, Outcomes | numbers as text, string operations, file contents, runs, results |

## What turned out different from the documentation

- The memory limiter admits at most 2(limit + burst) - 1 requests in any interval of the window's length exactly when
  cache entries outlive the window (`BoundedIffEntriesOutliveWindow`). The defaults, 60 seconds for both, are not enough:
  `ShortLifetimeDoubles` gives the run that admits 2(limit + burst).
- In the memory limiter a penalty lasts for the cache's entry lifetime; `penalty_cooldown`, which
  docs/CONFIGURATION.md:65 calls the ban duration, plays no part.
- Violations need not be consecutive, as src/config/schema.py:62 says: admissions in between do not reset the count
  (`ViolationCountIsLevel`, `SpacedStrikesLock`).
- On Redis all callers with one API key name, "anonymous" above all, count towards one violation counter
  (`RedisViolationsSharedByName`).
- A circuit that trips does not always reject traffic for the whole timeout: a write from an earlier heal that lands late
  opens the way again. Apart from resets and reloads nothing else does (`TripLastsIffTasksOpen`, `TripMayEndEarly`).
- A half-open circuit need not close with the number of successes that docs/CONFIGURATION.md:173 gives: the write that
  half-opening schedules may land between two successes and take the count back, or after the last and reopen the trial
  (`HealsIffNothingUnderWay`, `HalfOpeningMayNotHeal`).
- The pattern for webhook rules accepts an @ in alias or targets, which makes matching raise for every event
  (`AcceptedRuleReadsIffNoAt`, `RuleWithAtUnreadable`, `RaisesIffRuleUnreadable`).
- The Redis script counts distinct instants. Requests at one instant overwrite each other, so without distinct
  timestamps the bound holds in all runs exactly for a limit of at most one (`BoundedWithEqualTimesIffLimitOne`).
- A federation node that goes down is never polled again in the same process (`DownIsAbsorbing`,
  `OutageBringsDown`), while docs/FEDERATION.md:131 promises a retry after the backoff.
- A ban may end before its expiry if a deletion of an older, expired ban of the same entity is still scheduled, and only
  then (`BanLastsIffNoDeletionScheduled`).
- A failed repeat of a chunk removes the copy that an earlier attempt had stored, and the count gate does not notice;
  `FinalizeExactly` says what finalize then does.
- Range positions and suffixes past the end of the file are refused, where section 14.1.2 of RFC 9110 cuts them to the
  file; on an empty file that concerns every suffix but zero (`AgreesWithStandardIffNotOverLong`).
- From 1024^6 bytes on, printed sizes are wrong by a factor of about a thousand (`RoundTripsIffBelowLastUnit`).

## Assumptions

- The settings of a component do not change during a run. Circuit breaker thresholds and timeout, the federation
  threshold, cache lifetimes and chunk sizes are at least 1, and `retry_delay` is not negative.
- Cache keys are values; `KeyTextInjective` shows that the texts that the middleware and the SQLite and memory backends
  build for them never coincide. No other user of the cache chooses one of those texts.
- The memory limiter's cache and the limiter read one clock, and nothing is evicted for lack of room. Redis and the
  limiter read one clock.
- Bans and unbans are atomic, and so is a chunk write. Circuit breaker writes are not: the commit and the replacement of
  the cached entry are separate steps, and a reload clears the cache, reads the rows and puts them in one by one.
- A comparison with NULL is unknown, BETWEEN is the conjunction of two comparisons, IN is a disjunction of equalities
  (false for an empty list), and what a database makes of other values is arbitrary (`Dialect`).
- Floating-point numbers are exact.

## Model

| member | source | states |
|---|---|---|
| RateKeys.LimitsTextInjective | src/server/middleware/rate_limit.py:40-49 | The key text determines address and API key name, whatever characters the address header holds, because a key name has no colon |
| RateKeys.KeyTextInjective | src/cache/memory.py:27-123 | On the memory backend, and on SQLite, which builds the same violation keys, the count, expiry and violation keys of any addresses and API keys and the middleware's penalty keys are pairwise different texts |
| RateKeys.RedisViolationsSharedByName | src/cache/redis_backend.py:61 | On Redis two callers share a violation counter if and only if they use the same API key name, whatever their addresses |
| SqliteLimiter.SQLiteCache.IsIpPenalized | src/cache/sqlite_backend.py:22-30 | True exactly while the address has a penalty row that has no expiry or has not reached it |
| SqliteLimiter.SQLiteCache.EnforceRatePenalty | src/cache/sqlite_backend.py:33-67 | The new cache table: the violation count one up (or 1 if unreadable) for two windows, and from the threshold on a penalty row for the cooldown |
| SqliteLimiter.SQLiteCache.CheckRateLimit | src/cache/sqlite_backend.py:171-223 | Both tables and the answer after one request, as the step that the theorems below are about |
| SqliteLimiter.SQLiteCache.Set | src/cache/sqlite_backend.py:140-154 | The generic setter writes its row and clears every expired row, the limiter's included |
| SqliteLimiter.SQLiteCache.Delete | src/cache/sqlite_backend.py:157-161 | Removes one generic row and says whether it was there |
| SqliteLimiter.ValueKeptUntilExpiry | src/cache/sqlite_backend.py:140-154 | A value that is set stays until its time to live has passed, whatever the limiter and other writes do |
| SqliteLimiter.WriteClearsExpired | src/cache/sqlite_backend.py:140-154 | A write clears the expired rows and no others |
| SqliteLimiter.UnusualCounts | src/cache/sqlite_backend.py:46-54 | A stored boolean counts as 0 or 1, and what is no number starts at 1 |
| SqliteLimiter.PrunedLogMatchesHistory | src/cache/sqlite_backend.py:182-221 | In every run the pruned table and the full admission history agree on every key since any instant a present or later window can reach |
| SqliteLimiter.DeniedExactlyWhenWindowIsFull | src/cache/sqlite_backend.py:182-223 | An unpenalised request is denied if and only if limit + burst admissions of the whole history lie in [now - window, now], and the reported count is their number |
| SqliteLimiter.SlidingWindowBound | src/cache/sqlite_backend.py:182-223 | In every run no closed interval of the window's length holds more than limit + burst admissions of a key |
| SqliteLimiter.RequestTouchesOnlyItsKey | src/cache/sqlite_backend.py:193-220 | A request changes no rate-limit row of any other address or API key |
| SqliteLimiter.PenaltyRowKept | src/cache/sqlite_backend.py:22-67 | A penalty row is neither rewritten nor cleared before its expiry, whatever requests and cache users do |
| SqliteLimiter.PenaltyLastsTheCooldown | src/cache/sqlite_backend.py:185-215 | After the denial that reaches the threshold, every request of the address under any API key is refused, and changes nothing, until the cooldown ends |
| SqliteLimiter.StrikeRememberedTwoWindows | src/cache/sqlite_backend.py:56-60 | No clean-up drops a violation count within two windows of a violation, and it never decreases |
| SqliteLimiter.ViolationCountIsLevel | src/cache/sqlite_backend.py:43-60 | In every run the stored violation count is the number of over-limit denials since it was last cleared, with an expiry two windows after the last one; admissions do not reset it, only a cache write after that expiry does |
| SqliteLimiter.LockedExactlyDuringCooldown | src/cache/sqlite_backend.py:22-67 | In every run an address is locked out if and only if its last over-limit denial with a count of threshold or more, under any API key, is less than the cooldown ago |
| SqliteLimiter.AnswersFromHistory | src/cache/sqlite_backend.py:182-223 | After every run every request gets the answer that the last penalty and the whole admission history determine, whatever was pruned, cleared or left behind |
| SqliteLimiter.SpacedStrikesLock | src/cache/sqlite_backend.py:43-67 | A run with an admission between two over-limit denials locks the address at threshold two |
| RedisLimiter.SortedSet.EvalSlidingWindow | src/cache/redis_backend.py:27-45 | The sorted set, its time to live and the reply after one run of the Lua script |
| RedisLimiter.ExpiryLosesNothing | src/cache/redis_backend.py:34-42 | EXPIRE never discards an entry that pruning would have kept: whether Redis drops an outdated set or not, the script goes on with the same entries |
| RedisLimiter.DeadlineIsLastAdmission | src/cache/redis_backend.py:42 | In every run the time to live ends exactly one window after the last admission |
| RedisLimiter.DroppedOnlyFromDeadline | src/cache/redis_backend.py:42 | Redis may drop the set from that instant on and not before |
| RedisLimiter.StoredSetMatchesHistory | src/cache/redis_backend.py:34-42 | The set holds exactly the admission instants that a present or later window can reach |
| RedisLimiter.DeniedExactlyWhenWindowIsFull | src/cache/redis_backend.py:34-44 | The script denies if and only if limit distinct admission instants lie in (now - window, now], and reports their number |
| RedisLimiter.InstantBound | src/cache/redis_backend.py:34-44 | In every run no half-open interval of the window's length holds admissions at more than limit distinct instants |
| RedisLimiter.BoundedWhenTimesDistinct | src/cache/redis_backend.py:34-44 | With distinct timestamps every such interval holds at most limit admissions |
| RedisLimiter.BurstIsAdmitted | src/cache/redis_backend.py:41 | With a limit of two or more, any number of requests at one instant are all admitted |
| RedisLimiter.BoundedWithEqualTimesIffLimitOne | src/cache/redis_backend.py:34-44 | The bound holds in all runs, equal timestamps included, if and only if the limit is at most one |
| MemoryLimiter.MemoryCache.ApplyPenaltyViolation | src/cache/memory.py:23-34 | The cache after one violation: the count one up, and from the threshold on the penalty flag |
| MemoryLimiter.MemoryCache.CheckRateLimit | src/cache/memory.py:104-140 | The cache and the answer after one request, as the step that the theorems below are about |
| MemoryLimiter.LiveWindowCounts | src/cache/memory.py:125-140 | Inside a window a request is admitted exactly while fewer than limit + burst were, and the window state stays consistent |
| MemoryLimiter.StaleWindowReopens | src/cache/memory.py:128-134 | Past the window, or once the cache forgot it, the request is admitted and opens the next window |
| MemoryLimiter.FixedWindowBound | src/cache/memory.py:115-140 | In every run at most 2(limit + burst) - 1 admissions of a key lie in any closed interval of the window's length, if entries outlive the window |
| MemoryLimiter.BoundIsReached | src/cache/memory.py:115-140 | Some run has exactly 2(limit + burst) - 1 admissions in one such interval |
| MemoryLimiter.ShortLifetimeDoubles | src/cache/memory.py:59 | If entries live no longer than the window, some run has 2(limit + burst) admissions in one such interval |
| MemoryLimiter.BoundedIffEntriesOutliveWindow | src/cache/memory.py:115-140 | The bound holds in all runs if and only if the entry lifetime is longer than the window |
| MemoryLimiter.PenaltyLastsTheLifetime | src/cache/memory.py:23-34 | A penalty refuses every request of its address, under any API key, for exactly one entry lifetime |
| MemoryLimiter.LockedExactlyDuringLifetime | src/cache/memory.py:23-34 | In every run an address is locked out if and only if its last over-limit request with a count of threshold or more, under any API key, is less than an entry lifetime ago |
| MemoryLimiter.AnswersFromHistory | src/cache/memory.py:104-140 | After every run every request gets the answer of a reference limiter that has no cache and is defined by the requests alone |
| SqlPredicates.ParseOfClause | src/api/database/filter_builder.py:15-60 | Parsing the tokens of an AND-joined clause returns exactly the emitted predicates, although BETWEEN has its own AND |
| SqlPredicates.ClauseOfParse | src/api/database/filter_builder.py:96-107 | Whatever parses is the print of what it parses to, so clauses and predicate lists correspond one to one |
| SqlText.LexOfSpell | src/api/database/filter_builder.py:15-60 | Spelling tokens the way the f-strings do loses nothing if and only if each column is a single name: then lexing gives the tokens back |
| SqlText.SpellClause | src/api/database/filter_builder.py:15-60 | The text the builder concatenates is the spelling of the clause's tokens, for every list of predicates |
| SqlText.ClauseTextReadsBack | src/api/database/filter_builder.py:96-107 | The clause text lexes and parses back to exactly its predicates if and only if each column is a single name: a word without a leading digit other than the eight keywords of the clause grammar, a quoted name, or such parts with dots |
| SqlText.NamesAreWords | src/api/database/filter_builder.py:18-21 | Every generated parameter name is one word |
| ParamNames.NameTextInjective | src/api/database/filter_builder.py:18-21 | Names for single values, array items, between ends, SET and INSERT columns are pairwise different texts for all indices |
| FilterBuilder.ClauseBuilder.ProcessArrayOperator | src/api/database/filter_builder.py:8-24 | Fails exactly on a value that is no array; else adds one IN predicate and one parameter per item |
| FilterBuilder.ClauseBuilder.ProcessNullOperator | src/api/database/filter_builder.py:27-32 | Adds the IS predicate for a boolean and nothing for any other value |
| FilterBuilder.ClauseBuilder.ProcessStandardOperator | src/api/database/filter_builder.py:35-60 | Fails exactly on an unknown operator or a malformed between; else adds its predicate and parameters |
| FilterBuilder.OperatorsAccepted | src/api/database/filter_builder.py:12-58 | Exactly which operators and values are refused: unknown operators, array operators without a list or tuple, and a between without a list of two |
| FilterBuilder.ClauseBuilder.RouteFilterCriteria | src/api/database/filter_builder.py:63-79 | Fails exactly if an operator is invalid; else adds all of them, with null operators giving their index back |
| FilterBuilder.BuildWhereClause | src/api/database/filter_builder.py:87-107 | Succeeds exactly on valid filters and returns the joined clause with its parameters |
| FilterMeaning.FilterNamesDistinct | src/api/database/filter_builder.py:63-79 | Across columns, operators, array items and between ends no parameter name is used twice |
| FilterMeaning.PlaceholdersAreBindings | src/api/database/filter_builder.py:18-60 | The placeholders in clause order are the bound names in binding order |
| FilterMeaning.ParametersMatchPlaceholders | src/api/database/filter_builder.py:87-107 | Placeholders do not repeat, each is bound to the value it was made for, and there are no other parameters |
| FilterMeaning.OpKept | src/api/database/filter_builder.py:8-60 | One operator's predicate evaluates, in three-valued logic, to the direct meaning of the operator, or is absent where that says nothing |
| FilterMeaning.OperatorTrue | src/api/database/filter_builder.py:27-60 | The direct meaning in plain logic, operator by operator: what each of the thirteen asks of a value, and that NULL satisfies only the null operators |
| FilterMeaning.FilterKept | src/api/database/filter_builder.py:87-107 | For every filter, row and database, the emitted predicates under the returned parameters evaluate to the direct meaning of the filter |
| FilterMeaning.FilterTrueIffAll | src/api/database/filter_builder.py:96-107 | A filter is TRUE of a row if and only if every column's operators are |
| FilterMeaning.FilterUsesIndices | src/api/database/filter_builder.py:67-79 | The shared index counts the operators and plain values that take a parameter, so null operators give theirs back |
| FilterMeaning.EmittedInOrder | src/api/database/filter_builder.py:96-107 | Predicates and parameters come in the order of the filter's columns |
| FilterMeaning.OperatorsInOrder | src/api/database/filter_builder.py:67-79 | And within a column in the order of its operators |
| FilterMeaning.ClauseSelectsMeaning | src/api/database/filter_builder.py:107 | The printed clause, parsed again, selects exactly the rows where the filter is TRUE rather than unknown |
| FilterMeaning.EmitsIffConstrains | src/api/database/filter_builder.py:27-32 | A predicate is emitted if and only if the filter constrains something: empty criteria and null operators without a boolean do not |
| FilterText.OperatorText | src/api/database/filter_builder.py:15-60 | The clause text of each operator at any index, character by character, with the names of its parameters |
| FilterText.PlainValueText | src/api/database/filter_builder.py:101-105 | A plain value prints as an equality |
| FilterText.FilterTextReadsBackIffSingleNames | src/api/database/filter_builder.py:87-107 | The text printed for a filter reads back as its clause if and only if each column that the filter constrains is a single name |
| FilterText.FilterTextKeepsMeaning | src/api/database/filter_builder.py:87-107 | And then the text itself, lexed and parsed, selects exactly the rows where the filter is TRUE |
| Statements.ConstructUpdate | src/api/database/filter_builder.py:118-136 | Refused exactly for an invalid filter or one that constrains nothing; else the statement with SET and filter parameters merged |
| Statements.ConstructDelete | src/api/database/filter_builder.py:139-146 | Refused exactly for an invalid filter or one that constrains nothing |
| Statements.UpdateParametersSurvive | src/api/database/filter_builder.py:124-135 | Merging the filter parameters overwrites no SET parameter and loses none of its own |
| Statements.UpdateTouchesExactly | src/api/database/filter_builder.py:118-136 | An UPDATE assigns the data to exactly the rows of its table where the filter is TRUE and changes no other table |
| Statements.DeleteRemovesExactly | src/api/database/filter_builder.py:139-146 | A DELETE removes exactly the rows of its table where the filter is TRUE and keeps the others in order |
| Statements.InsertStores | src/api/database/filter_builder.py:110-115 | An INSERT adds one row to its table that holds each value in its column |
| Statements.ColumnNames | src/api/database/filter_builder.py:110-127 | Columns and parameters of INSERT and SET belong together, with their printed names |
| CircuitBreaker.Breaker.GetCircuitCache | src/security/storage.py:419-428 | A missing circuit is created closed and fresh, an existing one is returned |
| CircuitBreaker.Breaker.PersistState | src/security/circuit_breaker.py:53-64 | A snapshot of the circuit as it is now joins the scheduled writes |
| CircuitBreaker.Breaker.CheckOpen | src/security/circuit_breaker.py:71-92 | Answers whether traffic is rejected, and half-opens and schedules a write once the timeout has passed |
| CircuitBreaker.Breaker.RecordSuccess | src/security/circuit_breaker.py:95-120 | The circuit after a success: towards closing when half-open, decaying when closed |
| CircuitBreaker.Breaker.RecordFailure | src/security/circuit_breaker.py:123-143 | The circuit after a failure, tripped at the threshold unless already open |
| CircuitBreaker.Breaker.UpdateCircuitCommit | src/security/storage.py:403-408 | A scheduled write reaches the table |
| CircuitBreaker.Breaker.UpdateCircuitCache | src/security/storage.py:410-416 | And only afterwards replaces the cached circuit, however old it is |
| CircuitBreaker.Breaker.LoadCircuitBreakers | src/security/storage.py:174-177 | A reload empties the cache and waits for the rows |
| CircuitBreaker.Breaker.ReadCircuitBreakers | src/security/storage.py:177-178 | It gets every row of the table as it is by then |
| CircuitBreaker.Breaker.LoadCircuitBreaker | src/security/storage.py:179-186 | One row that was read replaces the cached circuit, however old it is by then |
| CircuitBreaker.Breaker.ScheduleReset | src/security/circuit_breaker.py:164-168 | A reset is a write of the fresh closed circuit |
| CircuitBreaker.InvariantAlways | src/security/circuit_breaker.py:71-143 | In every interleaving of calls, late and reordered writes, resets and reloads, every circuit in cache, table and tasks keeps its failure and success counts in line with its state and has a trip time if open |
| CircuitBreaker.HalfOpenFailureRetrips | src/security/circuit_breaker.py:129-143 | In any such state one failure in half-open opens the circuit again and schedules that write |
| CircuitPersistence.StateChangesArePersisted | src/security/circuit_breaker.py:71-143 | In every state a call schedules a write if and only if it changes the state of its circuit, the circuit as it is then; it touches no other circuit and no task |
| CircuitPersistence.TripsAtThreshold | src/security/circuit_breaker.py:129-143 | A failure opens a circuit if and only if it is not open and the count reaches the threshold, with the time of the failure |
| CircuitPersistence.SuccessCounts | src/security/circuit_breaker.py:101-116 | What a success does to each field of the circuit in each state |
| CircuitPersistence.QuestionHalfOpens | src/security/circuit_breaker.py:77-92 | A question rejects or half-opens an open circuit by its trip time and leaves every other circuit as it is |
| CircuitPersistence.DisabledDoesNothing | src/security/circuit_breaker.py:73-75 | A disabled breaker changes nothing |
| CircuitPersistence.TripSurvivesReload | src/security/circuit_breaker.py:137-143 | A trip schedules its write; once that is committed, and until another write of the circuit is, a reload puts back an open circuit with the time of the trip, whatever else happens |
| CircuitPersistence.TasksAreUsedOnce | src/security/storage.py:403-416 | In every run each scheduled write is committed at most once and replaces the cached circuit at most once after that |
| CircuitPersistence.ReloadsReadOnce | src/security/storage.py:174-186 | Each reload reads the rows once, and each row it read is put in the cache once |
| CircuitHealing.HealsIffNothingUnderWay | src/security/circuit_breaker.py:104-111 | A half-open circuit closes exactly with the success-threshold-th success and stays closed, in all continuations without failures, resets and reloads, if and only if no write or load is under way for it |
| CircuitHealing.HalfOpeningMayNotHeal | src/security/circuit_breaker.py:85-90 | In every state the question that half-opens a circuit schedules a write with which the trial need not close it that way |
| CircuitBreaker.OpenYieldsAfterTimeout | src/security/circuit_breaker.py:79-92 | If no failure is recorded for a key after some time, then from the timeout after it on its traffic is let through, whatever stale snapshots land |
| CircuitTrips.TripLastsIffTasksOpen | src/security/circuit_breaker.py:79-92 | A circuit that is open since some time rejects traffic until the timeout, whatever is called and whatever lands, if and only if every task under way for it carries a circuit that is open since then |
| CircuitTrips.TripLastsIffNoOlderTask | src/security/circuit_breaker.py:133-143 | In every run a new trip lasts its whole timeout, in all continuations without reset and reload, if and only if no write or load from before it is still under way for its circuit |
| CircuitTrips.TripMayEndEarly | src/security/circuit_breaker.py:53-64 | For every configuration some run trips, heals and trips again so that the second trip does not last: the write of the heal is still to land |
| CircuitTrips.CounterIsMaximalBalance | src/security/circuit_breaker.py:113-116 | The decaying counter is the largest failures-minus-successes of any block of outcomes that ends now |
| CircuitTrips.ClosedCounts | src/security/circuit_breaker.py:104-143 | In every run, until it first opens, a circuit is closed, all tasks and the row for it carry the fresh circuit, and it holds that counter for the outcomes since it was last replaced or dropped |
| CircuitTrips.OpensExactlyOnBadBlock | src/security/circuit_breaker.py:104-143 | In every run from a fresh start, resets and reloads included, the circuit has opened if and only if some contiguous block of outcomes without a replacement of the circuit in between had failures - successes >= threshold |
| CircuitTrips.OpensExactlyOnBadBlockOfAll | src/security/circuit_breaker.py:104-143 | Without resets and reloads that is any contiguous block of all outcomes |
| BanRegistry.SecurityStorage.BanEntity | src/security/storage.py:316-336 | Table row and cache entry after a ban; a duration of zero means forever |
| BanRegistry.SecurityStorage.UnbanEntity | src/security/storage.py:339-353 | Removes row and entry together and says whether there was a row |
| BanRegistry.SecurityStorage.CheckBan | src/security/storage.py:356-371 | The verdict, and for an expired entry its removal from the cache with a deletion scheduled |
| BanRegistry.SecurityStorage.LoadBans | src/security/storage.py:155-172 | Each cache holds exactly the unexpired rows of its kind |
| BanRegistry.AgreesAlways | src/security/storage.py:155-371 | In every reachable state the caches are part of the table and every row that is not cached has expired |
| BanRegistry.CheckEqualsTableScan | src/security/storage.py:356-371 | In every reachable state the cache-only check gives the verdict and reason of scanning the table |
| BanRegistry.BanLastsIffNoDeletionScheduled | src/security/storage.py:364-369 | A ban holds until its expiry in every continuation without further bans and unbans of its entity, if and only if no deletion of the entity is scheduled when it is imposed |
| BanRegistry.BanHoldsForItsDuration | src/security/storage.py:324-371 | Without a scheduled deletion a ban is in force from its call exactly until its duration is over, and for ever without a duration or with zero, in every continuation without further bans and unbans |
| BanRegistry.LiftRemoves | src/security/storage.py:339-353 | An unban removes row and entry of its entity and nothing else, and does nothing without a row |
| BanRegistry.DeletionsRunOnce | src/security/storage.py:364-369 | In every run each deletion that a lookup schedules runs at most once |
| BanRegistry.BanMayEndEarly | src/security/storage.py:364-369 | A reachable state has such a deletion scheduled: after a one-second ban and a lookup at second two no new ban of the entity is sure to last |
| ChunkPlan.PlanPartitions | src/api/storage/handlers.py:379-405 | Planned chunks are non-empty, at most the chunk size, adjacent from zero to the file size, and as many as announced |
| ChunkPlan.PlanCoversSource | src/api/storage/handlers.py:397-405 | Chunk sizes sum to the file size and the planned slices concatenate to the file |
| ChunkPlan.NegativeSizeHasNoChunks | src/api/storage/handlers.py:379-380 | A negative size gives a plan without chunks |
| ChunkedUpload.ChunkedUploadManager.Initiate | src/api/storage/chunked_upload.py:74-76 | A session with empty counts and an empty chunk directory |
| ChunkedUpload.ChunkedUploadManager.WriteChunkStream | src/api/storage/chunked_upload.py:83-110 | Session and chunk files after one attempt: stored and counted if the hash matches, else the file is gone |
| ChunkedUpload.ChunkedUploadManager.StreamChunkToFile | src/api/storage/chunked_upload.py:27-32 | Copying in blocks appends exactly the chunk |
| ChunkedUpload.ChunkedUploadManager.ReassembleChunks | src/api/storage/chunked_upload.py:35-53 | The target is the chunk files 0 to n-1 in order, or target and directory are gone and the error names the first missing one |
| ChunkedUpload.ChunkedUploadManager.FinalizeUpload | src/api/storage/chunked_upload.py:113-135 | Gate, reassembly, clean-up and checksum check as one step |
| ChunkedUpload.ChunkedUploadManager.Cancel | src/api/storage/chunked_upload.py:138-142 | Session and directory are gone |
| ChunkedUpload.FilesAreSurvivors | src/api/storage/chunked_upload.py:96-110 | After any writes and any finalize calls that the gate refuses, each chunk file is what the last attempt at it left, and list and byte count are those of the accepted attempts |
| ChunkedUpload.FinalizeExactly | src/api/storage/chunked_upload.py:113-135 | For any order, repetition and failure of writes, with any refused finalize calls among them: finalize passes gate and reassembly if and only if all chunks survive, and succeeds with exactly their concatenation unless a declared checksum differs |
| ChunkedUpload.WriteAnswers | src/api/storage/chunked_upload.py:86-110 | The client is told Ok if and only if the chunk was stored, and otherwise why not |
| ChunkedUpload.FinalizeAnswers | src/api/storage/chunked_upload.py:114-135 | The answers of finalize in the order of its checks; a missing chunk is the first one |
| ChunkedUpload.AnswersTellSurvival | src/api/storage/chunked_upload.py:83-110 | While the upload goes on, a chunk survives if and only if its last attempt was answered with Ok, and then with the bytes sent last |
| ChunkedUpload.OkForEveryChunkFinalizes | src/api/storage/chunked_upload.py:113-135 | Finalize gives exactly the bytes sent last, in order, if the last answer for every chunk was Ok and a declared checksum fits, and nothing otherwise |
| ChunkedUpload.MissingChunkIsFinal | src/api/storage/chunked_upload.py:45-49 | After a finalize that failed on a missing chunk no later finalize succeeds, whatever is written in between |
| ChunkedUpload.EndOfSession | src/api/storage/chunked_upload.py:137-142 | Cancelling removes session and chunks and leaves the target; an expired session leaves the chunks too |
| ChunkedUpload.NoSessionNoChange | src/api/storage/chunked_upload.py:86-118 | Without a session every later write and finalize is answered as expired and the target stays |
| ChunkedUpload.PlannedUploadRestoresFile | src/api/storage/chunked_upload.py:83-135 | Uploading the planned slices, in any order and with retries, restores the file byte for byte |
| WebhookRules.AcceptedRuleReadsIffNoAt | src/webhook/emitter.py:86-88 | A rule that the configuration accepts is read as the parts it was written from if and only if alias and targets have no @; otherwise matching raises |
| WebhookRules.RuleWithAtUnreadable | src/webhook/emitter.py:86-88 | The accepted rule db.any@a@b:c cannot be read |
| WebhookRules.MatchedExactly | src/webhook/emitter.py:62-104 | An enabled hook gets exactly the events that its rule's parts describe, wildcards included, and that carry a token which decodes to its ASCII secret |
| WebhookRules.ListedTargetsMatched | src/webhook/emitter.py:99-104 | Listed targets are matched one by one, up to surrounding space |
| WebhookRules.OneSecretPerToken | src/webhook/emitter.py:62-71 | No token triggers two hooks with different secrets |
| WebhookRules.NothingWithoutToken | src/webhook/emitter.py:64-71 | A missing, empty or undecodable token triggers nothing, and no token triggers a disabled hook |
| WebhookRules.RaisesIffRuleUnreadable | src/webhook/emitter.py:150-154 | Emitting raises if and only if the rule of some enabled hook cannot be read |
| WebhookRules.EmittedOnceToEachMatch | src/webhook/emitter.py:150-168 | An event goes to each matched hook exactly once and to no other |
| WebhookRules.MatchedInOrder | src/webhook/emitter.py:151-154 | The matched hooks come in the order of the configuration |
| WebhookQueue.Dispatcher.EmitEvent | src/webhook/emitter.py:136-182 | With both switches on each matched hook in turn gets a first attempt queued, or dropped if the queue is full; nothing happens if a switch is off or a rule cannot be read |
| WebhookQueue.Dispatcher.GetTask | src/webhook/dispatcher.py:121 | The dispatcher takes the first task of the queue |
| WebhookQueue.Dispatcher.ProcessDispatchTask | src/webhook/dispatcher.py:44-71 | The task in flight is delivered, or handed to failure handling |
| WebhookQueue.Dispatcher.HandleDispatchFailure | src/webhook/dispatcher.py:74-104 | The task sleeps, or is dropped past max_retries |
| WebhookQueue.Dispatcher.RetryRoutine | src/webhook/dispatcher.py:30-41 | A sleeper returns to the queue with its next attempt, or is dropped if the queue is full |
| WebhookQueue.Conservation | src/webhook/dispatcher.py:30-104 | In every run each emission of a pair is in exactly one place: queued, in flight, asleep, delivered or dropped |
| WebhookQueue.QueueBounded | src/webhook/emitter.py:53 | A queue with a positive size never exceeds it, retries included |
| WebhookQueue.EmissionFillsRoom | src/webhook/emitter.py:166-182 | The first hooks get the room that the queue has, in order, and only the others are dropped |
| WebhookQueue.WakingTakesRoom | src/webhook/dispatcher.py:33-39 | A sleeper queues last with its next attempt if there is room and is dropped otherwise |
| WebhookQueue.FailedPostSleeps | src/webhook/dispatcher.py:84-104 | A failed post puts its task to sleep while it has retries left and drops it otherwise |
| WebhookQueue.FirstInFirstOut | src/webhook/dispatcher.py:119-123 | In every run tasks are taken in the order in which they were queued |
| WebhookQueue.DeliveredIsAnswered | src/webhook/dispatcher.py:64-71 | In every run a pair counts as delivered exactly as often as a post of it was answered |
| WebhookQueue.EmittedAtMostOnce | src/webhook/emitter.py:150-182 | In every run of the emitter no pair of event and hook is emitted twice |
| WebhookQueue.PostsAndSleepBounded | src/webhook/dispatcher.py:74-104 | A pair is posted at most max_retries + 1 times and sleeps at most the sum of retry_delay^a for a up to max_retries |
| WebhookQueue.SleepSumClosed | src/webhook/dispatcher.py:95 | The sum of the delays is the geometric one |
| WebhookQueue.PowersMultiply | src/webhook/dispatcher.py:95 | The delays are powers of retry_delay: exponents add up |
| WebhookQueue.GivesUpOnlyAfterAllPosts | src/webhook/dispatcher.py:84-93 | A pair dropped after a failed post has had all max_retries + 1 posts and all the sleep |
| WebhookQueue.StepProgress | src/webhook/dispatcher.py:112-139 | Every step but an emission decreases the work measure |
| WebhookQueue.WorkEnds | src/webhook/dispatcher.py:112-139 | Once emissions stop, a run has no more steps than the measure of its start |
| WebhookQueue.AllSettledAtTheEnd | src/webhook/dispatcher.py:112-139 | When no step is left, every emission has been delivered or dropped, once |
| WebhookQueue.EverythingSettles | src/webhook/dispatcher.py:112-139 | After every run, once emissions stop, at most three steps are left for each post that a task on its way may still take, max_retries + 1 at most, and at the end each emission was delivered or dropped |
| Federation.Poller.constructor | src/api/federation/sync.py:156-162 | Stored states are kept and configured nodes not seen before start as unknown |
| Federation.Poller.RecordFailure | src/api/federation/sync.py:59-61 | The counter goes up by one from its value or zero |
| Federation.Poller.PollNode | src/api/federation/sync.py:73-139 | Counter and stored state after a poll with each of its outcomes; none for unknown nodes and open circuits |
| Federation.Poller.NextRetryNodes | src/api/federation/state.py:92-100 | Exactly the nodes that are unknown or past their retry time, each once |
| Federation.Poller.SelectNodes | src/api/federation/sync.py:168-181 | Exactly the due nodes and the configured up nodes past the sync interval, each once |
| Federation.ChosenWhenDue | src/api/federation/state.py:92-100 | New nodes, nodes past their retry time and up nodes past the interval are polled, and no others |
| Federation.ConsistentAlways | src/api/federation/sync.py:102-139 | For every node polled in this process the stored count is the counter f, never above the threshold T, and the status is up, degraded or down exactly for f = 0, 0 < f < T, f = T |
| Federation.BackoffRespected | src/api/federation/sync.py:118-138 | The poll after the f-th failure starts no sooner than min(2^f, backoff_max) after it |
| Federation.StreakTakesTime | src/api/federation/sync.py:116-139 | f failures in a row span at least the sum of the first f - 1 backoffs |
| Federation.DownTakesAllBackoffs | src/api/federation/sync.py:128-139 | From the first failure of a streak to going down at least the sum of min(2^f, backoff_max) for f = 1..T-1 passes |
| Federation.BackoffIsCappedPower | src/api/federation/sync.py:118 | The backoff is the smaller of two to the number of failures and the maximum |
| Federation.TotalBackoffClosed | src/api/federation/sync.py:118 | Below the maximum f failures in a row take 2^(f+1) - 2 seconds of backoff |
| Federation.OtherErrorsLeaveNoTrace | src/api/federation/sync.py:116 | Polls that end in any other exception change neither counters nor stored states in any run |
| Federation.PollTouchesOnlyItsNode | src/api/federation/sync.py:73-139 | A poll changes the counter and state of its own node only |
| Federation.DownIsAbsorbing | src/api/federation/sync.py:85-87 | A node that is down is never polled again in this process and its stored state stays |
| Federation.OutageBringsDown | src/api/federation/sync.py:116-139 | For every configuration some legal run of polls brings a configured node down |
| Federation.HealthyPollRecovers | src/api/federation/sync.py:102-114 | One healthy poll brings a configured node up with a zero counter if and only if it was not down |
| Federation.UpIsAlwaysDue | src/api/federation/sync.py:109 | An up node is due in every cycle, so the sync interval never decides |
| RangeStreaming.AcceptedBoundsLieInFile | src/api/storage/streaming.py:54-62 | For every header text, accepted bounds satisfy 0 <= start <= end < size |
| RangeStreaming.ParseOfWellFormed | src/api/storage/streaming.py:39-62 | A well-formed range in either form gets the bounds of section 14.1.2 of RFC 9110 if it does not reach past the file, else none; a suffix of an empty file reaches past it |
| RangeStreaming.AgreesWithStandardIffNotOverLong | src/api/storage/streaming.py:39-62 | The bounds are those of section 14.1.2 of RFC 9110 if and only if the range does not reach past the file |
| RangeStreaming.StandardBoundsCover | src/api/storage/streaming.py:39-62 | The bounds of section 14.1.2 of RFC 9110 hold exactly the positions of the file that the range asks for |
| RangeStreaming.OtherHeadersRefused | src/api/storage/streaming.py:39-62 | Other units and lists of ranges are refused |
| RangeStreaming.ParseSigned | src/api/storage/streaming.py:39-62 | Positions are read as int does: with a sign, underscores between digits, and space around them |
| RangeStreaming.UnderscoreIgnored | src/api/storage/streaming.py:39-62 | Single underscores between digits do not change the number |
| RangeStreaming.ShortReadsPossible | src/api/storage/streaming.py:75-82 | The short reads of the streaming theorems include every number of bytes that is there and asked for |
| RangeStreaming.StreamRange | src/api/storage/streaming.py:70-82 | For any short reads the blocks are non-empty, at most 65536 bytes, and concatenate to file[start..end] |
| RangeStreaming.StreamFile | src/api/storage/streaming.py:85-94 | For any short reads the blocks concatenate to the file |
| RangeStreaming.ServeFile | src/api/storage/streaming.py:141-169 | 416, 206 or 200 exactly by header and bounds, and the announced length is the length of the body |
| RangeStreaming.ConsecutiveRangesGiveFile | src/api/storage/streaming.py:70-94 | Consecutive ranges from zero, streamed one after the other, give the same bytes as the full stream |
| DirectoryWalk.ScanDirectory | src/api/storage/handlers.py:493-513 | The explicit-stack usage loop ends and returns the byte total and file count of the recursive fold, unreadable nodes included |
| DirectoryWalk.UsageCountsSizedFiles | src/api/storage/handlers.py:502-511 | That fold counts every file with a readable size once, at its size |
| DirectoryWalk.ScanCountsSizedFiles | src/api/storage/handlers.py:493-513 | The loop's result is the sum and number of all files with a readable size below a directory, and nothing for anything else |
| DirectoryWalk.ListRecursively | src/api/storage/handlers.py:652-664 | The explicit-stack listing ends and visits the entries in the order of the recursive definition |
| DirectoryWalk.VisitedIsRecursive | src/api/storage/handlers.py:652-664 | It collects each entry exactly as often as the natural recursion |
| DirectoryWalk.VisitedIsReachable | src/api/storage/handlers.py:652-664 | It collects exactly the entries that some path of indices through directories readable to the end leads to |
| SizeText.FormatSize | src/utils/size_parser.py:49-67 | The dividing loop prints the text that the unit's range and half-even rounding determine |
| SizeText.TiesGoToEven | src/utils/size_parser.py:63 | A tie is printed with the even digit: 1152 as 1.12 KB and 1408 as 1.38 KB |
| SizeText.NegativePrintsAsZero | src/utils/size_parser.py:54-55 | A negative size prints like zero |
| SizeText.ParseNumberWithUnit | src/utils/size_parser.py:31-46 | A number text with a unit in any case and any space around both reads as the product cut to an integer, and one without a unit as itself cut to an integer |
| SizeText.ReadableExactly | src/utils/size_parser.py:31-46 | A text can be read if and only if, without space and in lower case, it is a number with or without one of the six units |
| Texts.SpacesAre | src/utils/size_parser.py:31 | The ten ASCII characters that split and strip take for white space |
| SizeText.ParseOfFormat | src/utils/size_parser.py:23-67 | Every printed size can be read, as its printed hundredths times the unit |
| SizeText.RoundTripsIffBelowLastUnit | src/utils/size_parser.py:23-67 | Reading a printed size gives it back up to half a hundredth of the unit and one byte, exactly below 1024, if and only if it is below 1024^6 |
| SizeText.FormatStable | src/utils/size_parser.py:49-67 | For every size, printing what was read back gives the same text if and only if less than 1024.00 was printed |
| SizeText.NormalizeOfFormat | src/utils/size_parser.py:70-78 | normalize_size leaves a printed size as it is under the same condition |

## Left out

- Error paths of the limiters: a database or Redis exception admits the request; it is not a step of the runs.
- RedisLimiter.SortedSet.EvalSlidingWindow: the counting of violations and the penalties of the Redis backend are not modelled beyond the text of their keys; whether a caller is penalised is an arbitrary input of each call.
- Flushing a cache: it starts the limiters' histories anew.
- Eviction for lack of room in the memory cache.
- FilterText.FilterTextKeepsMeaning: states the meaning of the text only for columns that are single names, because other column texts do not lex back (`FilterTextReadsBackIffSingleNames`); on tokens `ClauseSelectsMeaning` has no such condition. Names in square brackets are not lexed, and words that only some databases reserve count as names.
- Empty IN lists and empty SET lists are printed as the source prints them; databases that reject them are not modelled.
- Splitting a ban into its table write and its cache write: between the two, cache and table can disagree.
- An aborted chunk upload, which leaves an unverified partial file behind, and concurrent writes to one session.
- Base64 decoding of the webhook token, which is an arbitrary function, and the timing of the comparison.
- Payload building and signing, HTTP, and the one-second pause of the dispatcher after an unexpected error.
- Loading and saving of federation states, and removal of a node from the configuration during a run.
- The ETag and circuit-breaker parts of serving a file, and non-ASCII digits and spaces in headers and size texts.
- Sorting and paging of the recursive listing, which follow the walk.
- Floating-point rounding of clock readings and sizes.
- Access control, path checks, the SQL transpiler, connection pools, metrics, MCP and the administration endpoints.
