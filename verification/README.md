# ATLAS state machines, modelled and proved

ATLAS stores what its agents do in an append-only, hash-chained event store and in a hash-chained
audit ledger, throttles its HTTP callers, and judges strategies from their trade ledgers. This
project models those parts in Dafny and proves what they keep, call by call and over whole runs.

- **Event store.** The table is a sequence of rows; an aggregate's stream is the `WHERE … ORDER BY
  sequence` query over it. `EventStore` is the class with its two LRU caches and snapshots, its
  methods running one at a time. `EventStoreRuns` is the step machine of any number of interleaved
  callers: one step per section between two `await`s, with the asyncio lock, failed inserts,
  inserts stored but reported as failed or the other way round, cancellations, unlocked readers and
  snapshots.
  `EventStoreFreshness` and `EventStoreSnapshots` say exactly which steps keep the two caches
  true, and `EventStoreSchedules` shows the schedules that leave a cached list stale.
  `ChainVerifier`, `Replay` and `Lineage` are the verifier, the replay and the depth-bounded graph
  search.
- **Audit ledger.** One chain per trace and one verification pass over all traces
  (`AuditLedger`), and its unlocked `record` calls, interleaved (`AuditLedgerRuns`).
- **Chain repair.** The script that recomputes the hashes, with the grouping key it uses and the
  one its comment names (`ChainRepair`, `ChainRepairProperties`).
- **Rate limiter.** The `OrderedDict` of buckets (`RateLimiter`), runs of its sweeps and decisions
  against a limiter that never forgets (`RateLimiterRuns`), the order in which the cap evicts
  (`RateLimiterOrder`), and the runs in which the two limiters part (`RateLimiterBursts`).
- **Trades.** Average-cost accounting (`TradePnl`), ledger metrics (`LedgerMetrics`), and the
  validator policy built on them (`ValidatorGate`), over real numbers.
- **Smaller machines.** An agent's retries and restarts (`AgentLifecycle`, `AgentLifecycleRuns`),
  the LLM request queue with its latched degraded mode (`LlmQueue`), and the mutation weights
  (`MutationWeights`).

The digest is an arbitrary function from a row's content and its predecessor's digest to non-empty
strings. It is nowhere assumed to be injective: where an injective hash would be needed, the result
says "or these two rows collide", with the rows named. Optional columns holding the empty string
read back as missing, as they do in the source, so a row is *faithful* when it has no such column.

Where the code differs from its own documentation, the model follows the code:

- `get_snapshot` returns the bare stored state, while `replay_aggregate` looks for the keys `state`
  and `version` in it. `Replay.EnvelopeReplay` is the intended reading, `Replay.ReplayTransparentIff`
  says exactly which snapshots are harmless as written.
- `get_events` filters by sequence and then limits when it finds a cached list, and limits and then
  filters when it does not, so the same call can return different events although the cache is
  right: with three events, from sequence 2 with limit 1, one event on a hit and none on a miss.
  `HitEqualsMissIff` says exactly when the two agree.
- Two overlapping `record` calls on one trace can leave two rows with one number that
  `verify_chain` does not notice (`OverlapDetectedIff`).
- `verify_integrity` promises a report; on a broken pointer that is missing (`hash_prev` is `None`
  after the first event) formatting the message raises. That is the verdict `Raised`.
- The repair script issues each update on a connection of its own that it never commits; the
  engine (atlas/data/storage/timescale_client.py:234) sets no autocommit, and SQLAlchemy 2 rolls an
  uncommitted connection back when it is closed. So as written the script reports repairs and
  stores none: the table is unchanged and the next pass counts the same rows
  (`SecondPassFindsNothingIff`, `ChainAfterPassIff`). The repair results cover a pass whose updates
  are committed and the pass as written.
- The repair script says it groups by aggregate id and groups by the parent event id.
  `RepairedStreamAccepted` says when a stream comes out right once committed,
  `OnlyChildLosesPredecessor` which ordinary streams it breaks.
- `p3_validator_sim.py` aims at "junk in validated/elite: target 0". With an elite band of zero or
  less that is not so: `JunkPromotedIff` gives the exact condition.
- A restart after the status `error` reports `running` and runs nothing
  (`RestartAfterErrorIsHollow`).
- A trade that flips a position keeps the old average price. `BalancedThroughoutIff` says exactly
  which histories stay balanced all the same, `FlatProfitIff` which flat ones report what they
  earned, and `FlipMisbooksProfit` is one that does not.
- The limiter forgets live admissions once more than 5000 keys are in use: `AgreesIffComplete` says
  exactly in which states its decisions are right, `BurstOverturnsLimit` gives the runs that get
  there.

## Model

| member | source | states |
|---|---|---|
| `HashChain.TamperEvidence` | atlas/core/event_store.py:386-419 | Two streams the verifier accepts that end in the same `hash_self` agree row for row as far back as the shorter reaches, or two of their rows are a hash collision. |
| `HashChain.TamperEvidenceRooted` | atlas/core/event_store.py:386-419 | If both streams also start with no `hash_prev`, they are equal (or contain a collision). |
| `HashChain.RemovalDetected` | atlas/core/event_store.py:410-417 | Removing an inner row of an accepted stream stays unnoticed exactly when its digest repeats its predecessor's. |
| `HashChain.AcceptedSlice` | atlas/core/event_store.py:382-419 | What the check cannot see: every contiguous part of an accepted stream is accepted, so cut ends go unnoticed. |
| `OrderedDicts.PutFacts` | atlas/core/event_store.py:553-563 | A bounded cache store leaves the new entry last, invents nothing, keeps at most the maximum, and drops nothing while there is room. |
| `EventTable.AppendKeepsGood` | atlas/core/event_store.py:96-165 | Inserting the row built from the current tail keeps every stream numbered 1..n, linked and self-consistent. |
| `EventTable.AppendOnlyLinked` | atlas/core/event_store.py:525-551 | An append-only stream reads back with sequences 1..n, each `hash_prev` the previous `hash_self`, none on the first row. |
| `EventTable.AppendOnlyAccepted` | atlas/core/event_store.py:382-419 | The first n events of an append-only stream are accepted exactly when each reads back faithfully or collides with its own read-back. |
| `StoreEffects.SnapshotCacheAgreesIff` | atlas/core/event_store.py:279-328 | After `create_snapshot` the cached snapshot is what the table query returns exactly when the new version is not below the stored ones, or the states are equal anyway. |
| `ChainVerifier.CheckChain` | atlas/core/event_store.py:378-441 | The loop raises exactly on a missing broken pointer, otherwise lists every violation once, by position and the digest before the link, is valid exactly when there is none, and counts as legacy those in the first quarter of the events. |
| `ChainVerifier.NoViolationIffAccepted` | atlas/core/event_store.py:386-419 | No violation is listed exactly when the stream is a chain of self-consistent, linked rows. |
| `ChainVerifier.CountByAge` | atlas/core/event_store.py:421-432 | Violations in the first quarter count as legacy, all others as active. |
| `Replay.EnvelopeReplay` | atlas/core/event_store.py:334-358 | Replay from a snapshot holding the fold of the first `version` events equals folding the whole stream. |
| `Replay.BareStateReplay` | atlas/core/event_store.py:348-352 | A stored state with neither a `state` nor a `version` key makes replay fall back to the full fold. |
| `Replay.ReplayTransparentIff` | atlas/core/event_store.py:348-358 | A snapshot leaves replay unchanged for every apply function exactly when it names no state and skips no event. |
| `Replay.ReplayFromStored` | atlas/core/event_store.py:348-358 | A stored state with version v (a number, a boolean, or none for 0) makes replay fold its `state` over the events numbered above v. |
| `Replay.NoNumberRaises` | atlas/core/event_store.py:348-353 | A stored version that is neither a number nor a boolean makes replay raise. |
| `EventStore.ApplyAll` | atlas/core/event_store.py:354-358 | The replay loop computes the left fold of the apply function over the events' data. |
| `EventStore.EventStore.StoreCachedEvents` | atlas/core/event_store.py:553-557 | Assignment, move to end and the eviction loop leave the new list last, the other keys in their order before it, and of the old ones the newest, 1024 entries at most. |
| `EventStore.EventStore.StoreCachedSnapshot` | atlas/core/event_store.py:559-563 | The same for the snapshot cache and its 256 entries. |
| `EventStore.EventStore.GetLastEvent` | atlas/core/event_store.py:506-523 | Returns an event with the highest sequence of the aggregate, or none exactly when it has no events. |
| `EventStore.EventStore.AppendEvent` | atlas/core/event_store.py:84-165 | One append adds one row holding the arguments, with `{}` for missing metadata, numbered and linked after an event of its aggregate with the highest number, whatever the table holds; both caches lose the aggregate; a failed insert changes nothing; good tables stay good and fresh lists stay fresh. |
| `EventStore.AppendAppliesData` | atlas/core/event_store.py:84-165 | In a good table, folding an aggregate after an append is applying the appended data to the fold before it. |
| `EventTable.TailFollowsLatest` | atlas/core/event_store.py:506-523 | The tail an append uses is that of an event with the highest sequence of the aggregate, or none exactly when it has no events, in every table. |
| `EventStore.EventStore.GetEvents` | atlas/core/event_store.py:171-203 | For lists numbered 1..n, by plain slices: a hit drops what is before the sequence and then keeps `limit` events, a miss keeps `limit` events and then drops what is before the sequence; what is cached in either case; with a fresh list and a stream within the limit both return the stream from the sequence on. |
| `StoreEffects.HitSlice` | atlas/core/event_store.py:178-183 | The slice of the cached list that a hit returns, for any sequence and limit. |
| `StoreEffects.MissSlice` | atlas/core/event_store.py:185-203 | The slice of the stream that a miss returns, for any sequence and limit. |
| `EventStore.EventStore.CreateSnapshot` | atlas/core/event_store.py:279-302 | Appends the snapshot to the stored ones and caches its state, whatever versions are stored. |
| `EventStore.EventStore.GetSnapshot` | atlas/core/event_store.py:304-328 | Returns the cached state, else the state of a stored snapshot of the highest version, which it caches, else none exactly when nothing is stored. |
| `EventStore.EventStore.ReplayAggregate` | atlas/core/event_store.py:334-358 | The result is the fold over the events read, and both caches are as after the two reads; with a fresh cache and at most 1000 events it is the replay of the whole stream; without a cached list a longer stream is replayed only as far as its 1000th event. |
| `EventStore.EventStore.VerifyIntegrity` | atlas/core/event_store.py:369-441 | The verdict on what `get_events` returns, with the cache as after that read; over an append-only table it never raises, and accepts exactly when every event checked reads back faithfully or collides with its read-back; uncached, it checks at most 1000 events. |
| `EventStoreRuns.StepKeepsInv` | atlas/core/event_store.py:84-203 | Every step of every caller keeps the lock exclusive, the tail that was read current until the insert, the streams chained and the cached lists prefixes of their streams. |
| `EventStoreRuns.RunKeepsInv` | atlas/core/event_store.py:84-203 | So in every reachable state each cached list, and each list about to be cached, is a prefix of its stream, and each cached snapshot state was stored for its aggregate. |
| `EventStoreRuns.EveryRunIsChained` | atlas/core/event_store.py:96-165 | After any interleaving every stream has sequences 1..n and an unbroken chain in insertion order, failed inserts leave no gap, and the caches hold at most 1024 and 256 entries. |
| `EventStoreRuns.EveryRunVerifies` | atlas/core/event_store.py:369-441 | After any interleaving `verify_integrity`, from the cache or the table, does not raise and accepts exactly when the events checked read back faithfully or collide. |
| `EventStoreFreshness.StepFreshIff` | atlas/core/event_store.py:96-203 | From a state in which every cached list, and every list about to be cached, is its stream, a step leads to another such state exactly when it is clean: it stores no row of an aggregate with a read in flight, nor, if reported as failed, of one with a cached list, and no query is cut by its limit. |
| `EventStoreFreshness.RunFreshIff` | atlas/core/event_store.py:96-203 | All lists are true in every state of a run exactly when each of its steps is clean. |
| `EventStoreFreshness.HitEqualsMissIff` | atlas/core/event_store.py:178-203 | With a cached list that is the whole stream, a hit and a miss return the same exactly when the sequence starts at the front or beyond the end, the limit covers the stream, or the limit is 0. |
| `EventStoreFreshness.CleanRunHitsEqualTable` | atlas/core/event_store.py:171-203 | In a clean run, with no append of the aggregate about to pop the caches, a read returns what the table read would exactly when nothing is cached or the order of the two cuts does not matter. |
| `EventStoreSnapshots.StepNewestIff` | atlas/core/event_store.py:279-328 | From a state in which every cached snapshot, and every one about to be cached, is the newest stored, a step leads to another such state exactly when it is clean: no lower version with another state is stored, nobody is about to cache another state, and no stored snapshot goes uncached while the cache has another state. |
| `EventStoreSnapshots.RunNewestIff` | atlas/core/event_store.py:279-328 | All cached snapshots are the newest in every state of a run exactly when each of its steps is clean. |
| `EventStoreSnapshots.CleanRunReadsNewest` | atlas/core/event_store.py:304-328 | In such a run, with no write pending, `get_snapshot` returns what the table query would. |
| `EventStoreSchedules.SerialAppend` | atlas/core/event_store.py:96-165 | The five sections of an append, with nobody in between, have exactly the effect of the method. |
| `EventStoreSchedules.SerialAppendWithoutRow` | atlas/core/event_store.py:138-162 | With nobody in between, an insert that raises, or whose id is taken, leaves everything as it was; one reported as done without a row only pops the caches. |
| `EventStoreSchedules.SerialRead` | atlas/core/event_store.py:171-203 | The sections of a read, with nobody in between, have the effect of the method, on a hit and on a miss. |
| `EventStoreSchedules.SerialSnapshotWrite` | atlas/core/event_store.py:279-302 | The same for writing a snapshot. |
| `EventStoreSchedules.SerialSnapshotRead` | atlas/core/event_store.py:304-328 | The same for reading one: cached, stored, or absent. |
| `EventStoreSchedules.RaceLeavesStaleList` | atlas/core/event_store.py:185-200 | From any idle state: a reader that queried before an append and caches after it leaves a list that misses the new event. |
| `EventStoreSchedules.LostInvalidationLeavesStaleList` | atlas/core/event_store.py:138-162 | An insert that was stored but raised leaves the cached list without the new event. |
| `EventStoreSchedules.SmallLimitLeavesShortList` | atlas/core/event_store.py:171-203 | A read with a small limit makes every later cached read return that many events, although the table holds more. |
| `Lineage.GetLineageGraph` | atlas/core/event_store.py:459-500 | Nodes are exactly the events within `depth` parent-to-child steps of the stored root, each with its type, aggregate type, sequence and time, edges exactly the pairs whose parent is a node, each once, cycles or not. |
| `Lineage.LineageSearch.Traverse` | atlas/core/event_store.py:464-497 | One call adds exactly what lies below its event within the remaining depth, and the edges out of what it added. |
| `Lineage.LineageSearch.GetChildren` | atlas/core/event_store.py:443-457 | The ids of the rows whose parent is this event, each once. |
| `Lineage.UnvisitedBelow` | atlas/core/event_store.py:464-469 | Below an unvisited event nothing has been visited, which is why the visited check cuts off no shorter route. |
| `AuditLedger.AuditLedger.Record` | atlas/core/audit_ledger.py:51-119 | A record alone adds one row holding the arguments, with `{}` for missing details, numbered and linked after a row of its trace with the highest number; a failed insert changes nothing; all traces stay chains. |
| `AuditLedger.AuditLedger.VerifyChain` | atlas/core/audit_ledger.py:159-226 | The single pass checks every row and reports valid exactly when each trace's own stream is accepted on its own. |
| `AuditLedger.CheckPass` | atlas/core/audit_ledger.py:179-226 | The loop, resetting where the trace changes, lists exactly the rows with a wrong digest or a wrong pointer. |
| `AuditLedger.PassIsPerTrace` | atlas/core/audit_ledger.py:183-220 | On rows that stand together by trace, the pass finds nothing exactly when every trace is accepted. |
| `AuditLedger.OrderedRows` | atlas/core/audit_ledger.py:164-177 | Ordered by trace and sequence under any collation, rows of one trace stand together and are that trace's stream. |
| `AuditLedger.ValidLedgersAgree` | atlas/core/audit_ledger.py:159-226 | Two ledgers reported valid in which a trace ends in the same digest agree on that trace as far back as the shorter reaches, wholly if both start with no `hash_prev`, or their rows collide. |
| `AuditLedger.RecordKeepsGood` | atlas/core/audit_ledger.py:66-119 | Adding the next row of a trace keeps every trace a chain numbered 1..n. |
| `AuditLedger.LookupsFollowNewest` | atlas/core/audit_ledger.py:271-307 | Whatever the table holds, the two lookups give the highest number of the trace plus one and the digest of a row with that number, or 1 and none for a trace without rows; an empty trace id looks at the rows without one. |
| `AuditLedger.ReadsBackWhole` | atlas/core/audit_ledger.py:309-330 | A row is read back as it was stored exactly when its resource id, trace id and previous hash are not the empty string. |
| `AuditLedgerRuns.SerialRecord` | atlas/core/audit_ledger.py:66-119 | The three sections of a record, with nobody in between, insert the next row of the trace, or nothing if the insert fails. |
| `AuditLedgerRuns.ApartRunsVerify` | atlas/core/audit_ledger.py:51-119 | Any interleaving in which calls on one trace do not overlap leaves chains; if no column is the empty string the ledger verifies, and if it verifies every row is faithful or collides. |
| `AuditLedgerRuns.InsertGoodIff` | atlas/core/audit_ledger.py:66-119 | An insert keeps every trace a numbered chain exactly when the number and the last hash its call has read are still current, or its trace id is the empty string, which no lookup uses. |
| `AuditLedgerRuns.RunGoodIff` | atlas/core/audit_ledger.py:66-119 | Whatever overlaps, every trace stays a numbered chain throughout a run exactly when each stored insert finds what its call has read still current. |
| `AuditLedgerRuns.InsertVerifiesIff` | atlas/core/audit_ledger.py:159-226 | After any insert into a ledger of numbered chains, current or not, the ledger verifies exactly when the row reads back consistently, points at the row before its place by number, and the row after that place points at it. |
| `AuditLedgerRuns.OverlapDetectedIff` | atlas/core/audit_ledger.py:66-119 | Of two calls on one trace with the same number, if the second read the last hash before the first inserted, the verifier reports it unless a digest repeats; if it reads the last hash afterwards, the ledger verifies although two rows have the same number. |
| `AuditLedgerRuns.OverlapBreaksChain` | atlas/core/audit_ledger.py:66-119 | The schedule in which two calls on one trace both count and both read the last hash before either inserts: same number, same predecessor, and the ledger no longer verifies (or the first row's digest collides), whatever columns the two rows have. |
| `ChainRepair.FixEventHashes` | scripts/fix_event_hashes.py:43-121 | Committed, every row keeps its content and gets the hashes recomputed along its group; as written, with no commit, the table is unchanged. Either way the count is the number of rows whose hashes differ from the recomputed ones. |
| `ChainRepair.GroupRows` | scripts/fix_event_hashes.py:40-48 | The dictionary pass gives each key its rows, in order. |
| `ChainRepairProperties.SecondPassFindsNothingIff` | scripts/fix_event_hashes.py:99-121 | A second pass counts nothing exactly when the first one was committed or no fetched row needed an update; as written its count equals the first one's. |
| `ChainRepairProperties.GroupIsChainIff` | scripts/fix_event_hashes.py:92-97 | A group is an accepted chain without a first `hash_prev` exactly when none of its rows needs an update. |
| `ChainRepairProperties.ChainAfterPassIff` | scripts/fix_event_hashes.py:99-121 | After a pass a group is such a chain exactly when the updates were committed or none of its rows needed one. |
| `ChainRepairProperties.ValidGroupUntouched` | scripts/fix_event_hashes.py:92-118 | A row of a group that already is such a chain is left exactly as it was. |
| `ChainRepairProperties.RepairedStreamAccepted` | scripts/fix_event_hashes.py:43-48 | After a pass with any key: if committed, an aggregate's stream is accepted when all its rows share a group, and otherwise only with a collision among the recomputed rows; as written, it is accepted exactly if it was before. |
| `ChainRepairProperties.ByAggregateRepairsEveryStream` | scripts/fix_event_hashes.py:40-45 | Grouped by aggregate id, as the comment says, a pass leaves a stream accepted exactly when it is committed or the stream was accepted before. |
| `ChainRepairProperties.OnlyChildLosesPredecessor` | scripts/fix_event_hashes.py:43-48 | Grouped by parent id, as written, a committed pass removes the `hash_prev` of an inner event that is the only one with its parent; uncommitted, the event stays as it was. |
| `RateLimiter.Limiter.Prune` | atlas/api/main.py:38-48 | The sweep drops exactly the keys with no admission less than 60 seconds old, then the oldest keys beyond 5000. |
| `RateLimiter.Limiter.Decide` | atlas/api/main.py:87-109 | A request is admitted exactly when fewer of its admissions than the limit (30 where none is set) are less than 60 seconds old; the new table, in both cases. |
| `RateLimiter.PrunedFacts` | atlas/api/main.py:38-48 | Pruning keeps only fresh buckets, unchanged, at most 5000, and all fresh ones when they are that few. |
| `RateLimiterRuns.RejectionsAreJustified` | atlas/api/main.py:87-107 | With a clock that does not run back, no request is rejected that the full history of admissions would let through. |
| `RateLimiterRuns.CountGap` | atlas/api/main.py:95-103 | The full count in the window is the bucket's count plus what the bucket lost through eviction. |
| `RateLimiterRuns.RunsLikeIdeal` | atlas/api/main.py:38-109 | As long as no fresh key is evicted by the cap, every decision is that of a limiter that never forgets. |
| `RateLimiterRuns.EveryWindowIsLimited` | atlas/api/main.py:87-109 | In such runs every window (x, x+60] holds at most `limit` admissions of a key. |
| `RateLimiterRuns.KeysAreBounded` | atlas/api/main.py:47-48 | After a sweep and after an admission at most 5000 keys remain. |
| `RateLimiterRuns.AgreesIffComplete` | atlas/api/main.py:87-107 | In any state satisfying the run invariant, all decisions, for any key and limit, are those of the full history exactly when no bucket has lost a live admission. |
| `RateLimiterOrder.KeysInOrderOfRequest` | atlas/api/main.py:87-109 | In every run the keys stand in the order of their last requests, rejected ones included. |
| `RateLimiterOrder.CapEvictsLeastRecentlyAsked` | atlas/api/main.py:38-48 | A live key that the cap evicts was last asked for before every key that is kept. |
| `RateLimiterOrder.AskedKeyIsKept` | atlas/api/main.py:90-109 | The key just asked for is never evicted by its own request. |
| `RateLimiterBursts.BurstFills` | atlas/api/main.py:38-107 | A burst of up to 5001 distinct keys within a window is admitted by both limiters; each key keeps one bucket, cut to the newest 5000. |
| `RateLimiterBursts.BurstOverturnsLimit` | atlas/api/main.py:47-48 | After every burst of 5001 keys the first key, evicted while live, is admitted again within its window with a limit of 1, where the full history rejects it. |
| `RateLimiterBursts.BurstsExist` | atlas/api/main.py:47-48 | Such bursts exist, of any length and from any moment on. |
| `RateLimiterBursts.RenewedKeyIsKept` | atlas/api/main.py:90-107 | After any burst of 5000 keys whose first key asks again, one more key evicts the second key, and the first key, with a limit of 2, is still rejected within its window. |
| `TradePnl.BookTrades` | check_trades_pnl.py:28-60 | The loop computes the book of the trades, and its position is the signed sum of the quantities. |
| `TradePnl.ReductionRealizes` | check_trades_pnl.py:40-52 | A trade that reduces the position keeps the average price and realizes, on the quantity it closes and no more, the distance of its price from that average. |
| `TradePnl.IncreaseAverages` | check_trades_pnl.py:35-60 | Any other trade realizes nothing; an opening one sets the average to its price, an increase to the mean weighted by quantity. |
| `TradePnl.PositionIsNetQuantity` | check_trades_pnl.py:35-60 | For every history, flips and unknown sides included, the position is the signed quantity sum. |
| `TradePnl.AuditPosition` | audit_lifecycle.py:39-50 | The independent position loop agrees with the accounting loop, and reports closed exactly when that position is within 0.001 of zero. |
| `TradePnl.Conservation` | check_trades_pnl.py:28-60 | After every trade, realized profit plus the flips' extra gains equals net cash flow plus position times average price. |
| `TradePnl.ConservationWithoutFlips` | check_trades_pnl.py:28-60 | Without flips, realized profit is net cash flow plus inventory at cost, after every trade. |
| `TradePnl.BalanceKeptIff` | check_trades_pnl.py:40-52 | Balanced books stay balanced over a trade exactly when it does not flip the position, or flips it at average cost. |
| `TradePnl.BalancedThroughoutIff` | check_trades_pnl.py:28-60 | For every proper history, the books balance after every trade exactly when each trade does not flip the position or flips it at the kept average price (accounts and cash are those of `LedgerOf` and `CashOf`). |
| `TradePnl.FlatProfit` | check_trades_pnl.py:28-60 | A history without flips that ends flat has earned its sale proceeds minus its purchase cost. |
| `TradePnl.FlatProfitIff` | check_trades_pnl.py:28-60 | A flat history earned its sale proceeds minus its purchase cost exactly when its flips' extra gains add up to zero. |
| `TradePnl.FlipMisbooksProfit` | check_trades_pnl.py:40-52 | A flat history with two flips that earned 10 is booked with 0. |
| `TradePnl.AverageWithinPrices` | check_trades_pnl.py:35-60 | While a position is open its average price lies between the lowest and the highest price traded. |
| `LedgerMetrics.MaxDrawdown` | scratch/ledger_metrics.py:46-51 | The one-pass loop: divides by zero exactly when some point is zero and none before it is positive, else returns a value in [-1, 0]; on a positive curve it is the deepest fall between any two points, above -1, so the clip changes nothing. |
| `LedgerMetrics.DropIsDeepestFall` | scratch/ledger_metrics.py:46-50 | The running minimum of drops from the peak is the minimum over all pairs i <= j of the relative change. |
| `LedgerMetrics.ComputeLedgerMetrics` | scratch/ledger_metrics.py:25-57 | On the trades themselves, in whatever order: total return and gross edge as compounded products with and without the cost of 0.004 on a tenth of the stake, cost burden their difference, win rate the share of trades above the cost (1 exactly when all are, 0 exactly when none is), expectancy the mean return, profit factor profit over loss capped at 5; and, for positive factors, the drawdown as the deepest fall of the curve in order of entry. |
| `LedgerMetrics.InOrderOfEntry` | scratch/ledger_metrics.py:32 | The sort puts the trades in ascending order of entry and keeps the order of those that enter together. |
| `LedgerMetrics.WinRateExtremes` | scratch/ledger_metrics.py:53-54 | The win rate lies in [0, 1], is 1 exactly when every trade beats its cost, and 0 exactly when none does. |
| `LedgerMetrics.ExpectancySign` | scratch/ledger_metrics.py:53-57 | The expectancy is positive exactly when the trades together earn more than their costs, exactly when profit exceeds loss, and exactly when the profit factor is above 1. |
| `LedgerMetrics.GrossExceedsNet` | scratch/ledger_metrics.py:32-45 | With positive net factors and at least one trade, the gross product strictly exceeds the net product. |
| `LedgerMetrics.CostsAlwaysShow` | scratch/ledger_metrics.py:40-45 | Then the cost burden is positive and the retained part of a positive gross edge is below 1. |
| `LedgerMetrics.NegativeFactorsHideCosts` | scratch/ledger_metrics.py:32-45 | With negative factors it fails: two losses beyond the stake have a negative cost burden. |
| `LedgerMetrics.CurvePositive` | scratch/ledger_metrics.py:36-39 | The equity curve of positive factors is positive, so the drawdown result applies. |
| `LedgerMetrics.OrderDoesNotMatter` | scratch/ledger_metrics.py:32-57 | All metrics but the drawdown depend only on the multiset of returns. |
| `LedgerMetrics.ProfitFactorAgreesWithExpectancy` | scratch/ledger_metrics.py:53-57 | The profit factor, within [0, 5], exceeds 1 exactly when the expectancy is positive. |
| `ValidatorGate.JunkPromotedIff` | scratch/p3_validator_sim.py:18-44 | A strategy with overfit >= 0.5, or gross edge <= 0, or fewer than 10 trades, is promoted exactly when covered, within both floors, and the elite band is zero or less. |
| `ValidatorGate.ScoreBounds` | scratch/p3_validator_sim.py:18-36 | With scores in [0, 1]: 0 <= deploy <= research <= 100. |
| `ValidatorGate.UnknownOverfitIsCapped` | scratch/p3_validator_sim.py:31-42 | An unknown overfit score caps deploy at 30, so with an elite band above 30 the strategy is not promoted. |
| `ValidatorGate.DeployFallsWithOverfit` | scratch/p3_validator_sim.py:31-36 | A larger overfit score never raises the deploy score. |
| `ValidatorGate.DeployIsShareOfResearch` | scratch/p3_validator_sim.py:26-36 | For all inputs the deploy score is the research score times five shares, each given by its breakpoints: trades (10 and 100), significance (0.5 and 0.95), overfit (0 and 0.5, or 0.3), the power of what costs leave, turnover (20 and 200 a day). |
| `ValidatorGate.CleanDeploy` | scratch/p3_validator_sim.py:26-36 | With phi at least 0.95, overfit 0 and at most 20 trades a day, deploy is research times the power of the retained share times (n - 10) / 90, and no such factor from 100 trades on. |
| `ValidatorGate.DeployPositiveIff` | scratch/p3_validator_sim.py:26-36 | With a power that is positive on positives, deploy is positive exactly with more than 10 trades, phi above 0.5, overfit unknown or below 0.5, positive gross edge and total return, fewer than 200 trades a day, and a positive research score. |
| `ValidatorGate.DeployGrowsWithSample` | scratch/p3_validator_sim.py:26-36 | At the same turnover more trades never lower the deploy score. |
| `ValidatorGate.TierGrowsWithSample` | scratch/p3_validator_sim.py:26-44 | Nor the tier, whatever the floors and bands. |
| `ValidatorGate.ResearchExtremes` | scratch/p3_validator_sim.py:21-25 | With scores in [0, 1], research is 100 exactly when every figure meets its target and every validator scores 1, and 0 exactly when none of them counts. |
| `ValidatorGate.ResearchIsWeightedSum` | scratch/p3_validator_sim.py:21-25 | The research score is 60 points of performance, weighted 22, 16, 12 and 10, and 40 of the validators, weighted 18, 12 and 10. |
| `ValidatorGate.TiersExact` | scratch/p3_validator_sim.py:38-44 | Each of the five tiers exactly by its conditions. |
| `ValidatorGate.CleanStrategyTier` | scratch/p3_validator_sim.py:26-44 | A clean strategy with at least 100 trades and coverage is promoted exactly when it meets the floor and its research score times the power of the retained share reaches 35, and is elite exactly when it also meets the production floor and reaches the elite band. |
| `AgentLifecycle.BaseAgent.RunWithRetry` | atlas/core/agent_base.py:164-215 | Against any sequence of attempts: every run but the last failed and slept its backoff of 2, 4 or 8 seconds undisturbed, the last one decides the final status, the loop ends only for a reason (success, cancellation, a changed status, or the fourth failure), and `error` means the budget is spent or somebody set it. |
| `AgentLifecycle.BaseAgent.Start` | atlas/core/agent_base.py:82-103 | A start does nothing for a running agent; else it computes the wait since the last launch, launches no earlier than that, at least 30 seconds after it, and creates the heartbeat and the main task. |
| `AgentLifecycle.BaseAgent.Stop` | atlas/core/agent_base.py:105-124 | Stopping keeps `error` and turns every other status into `stopped`; it cancels the heartbeat and the main task unless they are done, and forgets both. |
| `AgentLifecycleRuns.WholeLifeBudget` | atlas/core/agent_base.py:82-215 | With at most k tasks in `run()` at a time, at most 3 + k runs fail over the whole life, backoffs total 0, 2, 6 or at most 14 seconds by the number of failures, and `error` means the budget is spent. |
| `AgentLifecycleRuns.SpentBudgetIsFinal` | atlas/core/agent_base.py:164-168 | With the budget spent and nothing running, nothing ever runs again, whatever is called. |
| `AgentLifecycleRuns.ErrorStays` | atlas/core/agent_base.py:105-131 | With no `run()` under way and no start call asleep, `error` survives any number of stops until somebody starts, pauses or resumes the agent. |
| `AgentLifecycleRuns.RestartAfterErrorIsHollow` | atlas/core/agent_base.py:82-103 | Starting an agent in `error`, with or without the wait, leaves it `running` with no task; however often it is started afterwards, and whatever is called but stop and pause, nothing changes. |
| `AgentLifecycleRuns.ResumeIsHollow` | atlas/core/agent_base.py:130-132 | Resuming an agent without a task, whatever its status, makes it `running` with no task, until it is stopped or paused. |
| `AgentLifecycleRuns.PausedBeginsNothing` | atlas/core/agent_base.py:126-169 | A paused agent begins no new run until somebody starts or resumes it. |
| `AgentLifecycleRuns.LaunchesApart` | atlas/core/agent_base.py:86-101 | With start calls that do not overlap, successive launches are at least 30 seconds apart. |
| `AgentLifecycleRuns.SerialStart` | atlas/core/agent_base.py:82-103 | A start call with nobody in between, asleep first or not, is one launch, or nothing for a running agent. |
| `AgentLifecycleRuns.SerialTurn` | atlas/core/agent_base.py:164-215 | The steps of one task with nobody in between, for a failure, a success with or without its cooling sleep, and a cancellation, are one turn of the retry loop. |
| `AgentLifecycleRuns.OverlappingStartsLaunchTwice` | atlas/core/agent_base.py:86-101 | Two start calls asleep together launch two main tasks at the same moment. |
| `LlmQueue.ClaudeClient.Complete` | atlas/core/claude_client.py:179-210 | With an API key the request is queued last; without one the degraded provider answers at once and the client stays degraded. |
| `LlmQueue.ClaudeClient.ServeOne` | atlas/core/claude_client.py:140-177 | One turn of the worker: who answers, and how the failure count and the mode change. |
| `LlmQueue.ClaudeClient.Drain` | atlas/core/claude_client.py:140-177 | Working off a queue, from any mode and failure count, answers every request in order; the primary provider is asked until two outcomes in a row have failed, earlier ones included, and the mode and the count are those outcomes leave. |
| `LlmQueue.SerialServe` | atlas/core/claude_client.py:140-177 | Taking and finishing a request, with nobody in between, is one turn of the worker, with at most one answer for its future. |
| `LlmQueue.EveryRun` | atlas/core/claude_client.py:140-219 | In every interleaving requests are served in arrival order with none lost; a future is done only because the worker set it or its caller gave it up; the primary provider answers exactly the requests whose call to it succeeded; the mode is degraded exactly when two adjacent primary outcomes failed. |
| `LlmQueue.AnsweredOnce` | atlas/core/claude_client.py:164-177 | Every future is set exactly once: none twice, and each served request that its caller did not give up is answered. |
| `LlmQueue.AbandonedUnanswered` | atlas/core/claude_client.py:164-177 | A request whose caller gives it up before it is answered is never answered. |
| `LlmQueue.AnswersAreTheServed` | atlas/core/claude_client.py:164-177 | In runs where no caller gives up, the answers are exactly the served requests, in order. |
| `LlmQueue.DegradedForGood` | atlas/core/claude_client.py:147-153 | The degraded mode never clears and no primary call is made in it. |
| `MutationWeights.LearnWeights` | scripts/phase32_adaptive_intelligence_soak.py:400-412 | The learned weights of any families: none exactly without families, else as stated below for each name's last figures. |
| `MutationWeights.PerformanceTable` | scripts/phase32_adaptive_intelligence_soak.py:405 | The comprehension keeps one entry per name: the score delta plus half the Sharpe delta of its last occurrence, or 0 if that is negative. |
| `MutationWeights.WeightsSumToOne` | scripts/phase32_adaptive_intelligence_soak.py:406-412 | For any number of families and any scores the weights add up to 1. |
| `MutationWeights.WeightsKeepFloorAndOrder` | scripts/phase32_adaptive_intelligence_soak.py:406-412 | With a positive total each weight is 0.8 of the share plus 0.2/n, so at least 0.2/n, and the order of performance is preserved strictly; otherwise all are 1/n. |

## Left out

- SHA-256 (section 6.2 of FIPS 180-4), the JSON text of a row and timestamp formatting: one arbitrary digest function of the content; a content stored and read back is the same except for empty optional strings.
- Floating-point numbers: arithmetic is over the reals, and the JSON values of events and snapshots have no fractions.
- The database client's own work on an insert (UUID normalisation, retries, dead letters): an insert is stored, not stored and reported as failed, stored but reported as failed, or not stored but reported as done (zero rows affected, atlas/data/storage/timescale_client.py:3143-3166).
- Outcomes of a snapshot insert: stored but reported as failed has no outcome of its own, but cancelling its task before it caches the state has the same effect and is in the model; not stored but reported as done, after which a state is cached that no row holds, is not. The same goes for a ledger entry reported as done and not stored, which is an insert that failed as far as the table goes.
- Aliasing: the list a cache miss returns is the list that was cached, and a caller that changes it changes the cache.
- Appends while a lineage search is running: the table is fixed during one search.
- Events without an aggregate id, or with the empty string as one, all get sequence 1 and no pointer; the results on streams are about non-empty ids.
- Rows with equal sequence numbers: the order by sequence is a stable sort; of snapshots with equal versions the query returns one of them.
- String order of the database: a parameter, any total order.
- HashChain.TamperEvidence: a cut at either end of a stream is not evident, because the verifier keeps no record of how a stream begins or ends.
- RateLimiterRuns.RunsLikeIdeal: only for runs in which the cap evicts no fresh key; after such an eviction the two limiters can differ (`BurstOverturnsLimit`).
- RateLimiterRuns.RejectionsAreJustified: the full history is that of the limiter's own admissions; a second limiter run beside it has another history once a fresh key has been evicted.
- ChainRepair.FixEventHashes: one switch says whether all updates are committed; a pass in which only some are is not modelled.
- The middleware's dispatch on paths and methods, key validation and the 401 and 500 responses; requests that only sweep are `Sweep` events.
- Ledger rows with a missing `details` column; in an empty stream's report the keys for violations are absent, modelled as `EmptyReport`.
- Sharpe, Sortino, calmar, standard deviations, annualisation, `erf` and the power 0.75: `ValidatorGate` takes the Sharpe ratio, `Phi` and the power as parameters.
- The trade scripts' grouping by strategy and symbol, and their report counters: one group at a time.
- The heartbeat loop, and the durations of the cooling sleep other than that it may be cancelled.
- LlmQueue.ClaudeClient.Drain: the worker's endless loop is one pass over the requests present; runs with arrivals in between are in `LlmQueue.EveryRun`.
- LlmQueue.EveryRun: runs with an API key throughout; a call without one latches the degraded mode by itself (`ClaudeClient.Complete`).
- LlmQueue.ClaudeClient.Complete: up to the wait for the future; the worker never sets an exception on it, so the fallback after the wait is left out, and so is starting the worker.
- AgentLifecycle.BaseAgent.Stop: a stop with nobody in between; while it waits for the cancelled tasks another start can create tasks that it then forgets. What the tasks still do meanwhile is in the steps of `AgentLifecycleRuns` (`TaskCancelled`), not in the method.
- The `None` sentinel that ends the worker, and a degraded provider that raises.
- Queries by trace or type, summaries, entry listings and the rest of the platform.
