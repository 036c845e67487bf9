# Real-time transaction monitor: model and proofs

The system takes in payment transactions, keeps the newest 200 of them, caches them, and pushes them to
dashboards that aggregate them. This project models its stateful core and its calendar arithmetic and proves what
they promise; where the code does less than its comments say, the exact condition is proved instead.

- `Transactions`, `StableSort`: transactions, keyed contents, and the one ordering everything uses, "newest first,
  ties as they were".
- `RecentWindow`, `TransactionStore`: the capped, latest-wins store as a class with its loops, and when it is the
  newest-200 window of an unbounded history.
- `ConcurrentStore`: the same store with any number of writers, as a step machine of indexer write, `Count` check,
  scan and `TryRemove`.
- `NewerEntries`, `EvictedEntries`: what such writers can evict that they should have kept, counted exactly.
- `CacheProvider`, `ConcurrentCacheProvider`: the in-memory cache with lazy expiry, alone and interleaved.
- `TransactionService`, `CacheAside`: the service, the cache adapter and its backend as classes; the relations their
  methods are proved to implement; and what these relations give over whole sequential runs.
- `CacheProtocol`: several pods sharing one list key, with concurrent fills and operations that do not land.
- `SingleKeyProtocol`: one transaction's own key, set by writes and by reads that missed, under concurrency.
- `LiveFeed`, `ConnectHandoff`, `HandoffWitnesses`: the dashboard's two message handlers; the protocol by which a new
  connection gets its history and the live stream while N writers persist, trim and broadcast; and runs that show that
  each exception the theorems allow for does occur.
- `Text`, `UtcCalendar`, `PeriodLabels`, `IsoWeeks`, `RevenueTrend`, `LabelParsers`: decimal text, UTC dates after
  ECMA-262, week labels against ISO 8601, the revenue trend, and the chart's label parsers.
- `Aggregations`: key figures, status counts and the currency table.

A run is a sequence of states and the steps between them, and a theorem about runs speaks of every state of every
run. Times and dates are integers; `now` is a parameter wherever the code reads a clock. Amounts are exact. The main
results stand first in the table below.

A transaction's timestamp is an integer whose scale is that of the module: ticks of 100 nanoseconds from the year 1 in
`TransactionService`, where it is validated, and milliseconds from 1970 in `PeriodLabels` and `RevenueTrend`, where it is
bucketed. In between only the order counts; `ConnectHandoff`, where both sides meet, takes whole milliseconds.

Where the code and its comments differ, the code is modelled:

- `ITransactionCache` (lines 38-45) says a fresh client never sees stale history. `CacheProtocol` proves the bound
  that does hold, exactly when a list is stale, the `ProcessAsync` responsible, and two runs that show it happening.
- `InMemoryTransactionStore` (lines 12-16) says the store settles at 200 or fewer. It does, but N concurrent writers
  may leave as few as 201 - N, and a broadcast transaction can be lost to a client although newer ones are fewer than
  200. `EvictedEntries` and `ConnectHandoff` prove the bound that holds, `HandoffWitnesses` that it is reached.
- `TransactionService` (lines 64-70) says its side effects keep the cache from going stale. Per-id keys, which have no
  time to live, can keep an old version for good; `SingleKeyProtocol` states exactly when.
- `TransactionService` (line 57) says the constructor's invariants hold after validation. They do not for the default
  timestamp, which the constructor refuses by throwing.
- `InMemoryCacheProvider` (lines 6-9) calls itself the fallback cache. It reports that it is not connected (line 20), so
  `TransactionCache` never uses it; without Redis there is no cache at all.
- `InMemoryCacheProvider` reads the wall clock, which can step back, and its clean-up removes by key alone; a live entry
  can be lost either way. `CacheProvider` and `ConcurrentCacheProvider` state exactly when.
- `formatWeekly` and `bucketLabel` (lines 216-225 and 254-263 of `aggregations.ts`) call their labels ISO 8601 and
  their anchor the first Thursday. The anchor is 4 January; `IsoWeeks` states the difference.
- The comment on the trend (line 109) says that the daily window ends today. The code (lines 156-167) ends it on
  Saturday.

## Model

| member | source | states |
|---|---|---|
| ConcurrentStore.BoundsHold | server/src/RTM.Infrastructure/InMemoryTransactionStore.cs:12-16 | in every reachable state of every interleaving: size at most 200 + writers inside `AddAsync`; once a check has found more than 200, size at least 201 - N + writers between their check and their removal |
| ConcurrentStore.CallsFinish | server/src/RTM.Infrastructure/InMemoryTransactionStore.cs:29-36 | N writers with C calls in all, starting from S entries, take at most (3N + 4) C + 3N S steps under every schedule |
| EvictedEntries.MissingAreOutnumbered | server/src/RTM.Infrastructure/InMemoryTransactionStore.cs:70-84 | in every reachable state of every schedule of N writers, with distinct ids and timestamps in any order, a transaction that was written is in the store or the store has at least 201 - N entries at least as new |
| ConnectHandoff.HandoffHasNoOtherGap | server/src/RTM.Application/TransactionService.cs:62-74 | with N concurrent writers, a broadcast transaction is in the feed of a client that has caught up, or outnumbered there by at least 201 - N at least as new (all 200 for one writer), unless it was persisted after the history was taken from the store, which is when the cache's fill read it if the history was served from the cache, and broadcast before that history was sent; and then it is missing for certain |
| ConnectHandoff.FeedHoldsExactly | client/src/hooks/useLiveTransactions.ts:34-48 | a client that has caught up shows each transaction once for its history and once more if broadcast after that history was sent, except for copies displaced by a full feed of entries at least as new |
| CacheProtocol.StalenessIsBounded | server/src/RTM.Infrastructure/TransactionCache.cs:90-109 | with concurrent fills and any operation dropped, the list served at time t is exactly what the fill now in the cache read from its pod's store, at a moment later than t - TTL - (that fill's own read-to-write delay); so is every slice `GetLatestAsync` takes of it |
| CacheProtocol.StalenessHasACause | server/src/RTM.Application/TransactionService.cs:62-72 | on one pod whose invalidations land, a stale list means that the very `ProcessAsync` whose change gave the store its present contents changed it after the fill now in the cache read it, and has not invalidated yet or did so before that fill wrote the list |
| SingleKeyProtocol.CurrentExactlyWhen | server/src/RTM.Application/TransactionService.cs:62-71 | over every concurrent run, with dropped operations, evictions and losses, a transaction's own key holds the version put last if and only if no version was put after the caller who set the key had picked his up; and it holds an equal transaction if and only if the last such put, if any, put an equal one |
| RecentWindow.StreamingWindow | server/src/RTM.Infrastructure/InMemoryTransactionStore.cs:29-36 | over every sequential run from the empty store the window property holds throughout if and only if every add meets that condition |
| RevenueTrend.RevenueIsConserved | client/src/services/aggregations.ts:117-141 | for every list, period and day, the bucket values add up to exactly the completed amounts whose day, as their label reads it, lies in the window; that is their UTC day, except as `DayReadIsDay` says |
| PeriodLabels.SameLabelSameBucket | client/src/services/aggregations.ts:242-268 | two moments have the same label exactly when they lie in the same bucket, for every period and all dates |
| IsoWeeks.WeekLabelAgainstIso | client/src/services/aggregations.ts:216-225 | the label shows the ISO week-year and the ISO week number, plus one when that year begins on a Friday, Saturday or Sunday, if and only if neither the day's year nor its week-year lies in 0 to 99; the number stays in 1 to 53 |
| RevenueTrend.WindowShowsExactly | client/src/services/aggregations.ts:150-199 | for plain clocks a moment has its label in the window exactly when its day lies in today's Sunday-to-Saturday week, in today's Monday-to-Sunday week or the eleven before, in the twelve months, or in the five years ending with today's; there are 7, 12, 12 or 5 labels, and today's own is at its weekday's place, or last |
| UtcCalendar.MonthLengths | client/src/services/aggregations.ts:245-246 | every month has the length the Gregorian calendar gives it, counted on from 1 January 1970 |
| LiveFeed.FeedIsBatch | client/src/hooks/useLiveTransactions.ts:37-44 | after any run of messages the list is the first 200 of one stable sort of everything received since the last history, latest arrival first, followed by that history |
| CacheAside.CacheIsTransparent | server/src/RTM.Application/TransactionService.cs:80-123 | over every sequential run with constant connectivity and arbitrary loss of keys, `GetAllAsync` lists exactly the store, and `GetLatestAsync(n)` answers what the store could have answered, with the same timestamps, hit or miss |
| CacheAside.ServedListIsYoung | server/src/RTM.Infrastructure/TransactionCache.cs:95-99 | over every sequential run, connected or not, a list served from the cache is what the store held at a `GetAllAsync` less than the TTL earlier, so a skipped invalidation is outlived |
| CacheAside.ReadsByIdNeverGoBack | server/src/RTM.Application/TransactionService.cs:125-141 | while writes find the cache connected, `GetByIdAsync` answers the last processed version, even of an id the store has evicted, or nothing only when store and cache both lack it; for any text as id |
| LabelParsers.DailyRoundTrip | client/src/components/RevenueTrendChart.tsx:87-91 | `parseDaily(formatDaily(d))` is d in the years 1000 to 9999 and null in all others |
| Aggregations.AggregationsAgree | client/src/services/aggregations.ts:36-303 | for any permutations of one list the counts agree, they fall short of the total by exactly the transactions of unknown status, and a currency has revenue exactly when it has a completed transaction, namely its row's completed sum |
| CacheProvider.LazyDeletionShowsExactlyWhen | server/src/RTM.Infrastructure/InMemoryCacheProvider.cs:32-46 | whatever the clock does, a read answers what a timed map that never deletes anything would show, if and only if it is not the case that the latest write is live now although an earlier read has found it expired |
| ConcurrentCacheProvider.MissesAreExpiredOrRaced | server/src/RTM.Infrastructure/InMemoryCacheProvider.cs:38-42 | a key whose latest write is live is missing if and only if a reader looked the key up before that write and got to its `TryRemove` after it |
| ConcurrentCacheProvider.ReadsAreRightExactlyWhen | server/src/RTM.Infrastructure/InMemoryCacheProvider.cs:32-46 | every finished read, a `None` included, answers what the log of writes showed at its lookup at the time of its check, if and only if that was not both live and raced away |
| ConcurrentStore.SettledSize | server/src/RTM.Infrastructure/InMemoryTransactionStore.cs:12-16 | when all N writers have left, size at most 200, and at least 201 - N if the limit was ever seen exceeded; exactly 200 for one writer |
| ConcurrentStore.StepDecreasesMeasure | server/src/RTM.Infrastructure/InMemoryTransactionStore.cs:72-83 | every step of every writer, a lost `TryRemove` race included, decreases one measure of calls left, entries, phases and victims already gone |
| ConcurrentStore.NeverStuck | server/src/RTM.Infrastructure/InMemoryTransactionStore.cs:70-84 | while a call is unfinished some step can be taken |
| ConcurrentStore.EvictionIsRightExactlyWhen | server/src/RTM.Infrastructure/InMemoryTransactionStore.cs:75-82 | since `TryRemove` goes by key alone, an eviction leaves the newest entries in place if and only if its victim is still an oldest entry (or gone) when it is removed |
| ConcurrentStore.SettlesOnNewest | server/src/RTM.Infrastructure/InMemoryTransactionStore.cs:8-16 | if ids are new and arrive in time order, every schedule settles on a newest-n window of everything written, with 201 - N <= n <= 200 once the limit was seen exceeded |
| ConcurrentStore.LowerBoundIsReached | server/src/RTM.Infrastructure/InMemoryTransactionStore.cs:70-84 | 201 - N is not slack: N writers bringing the store to 201 entries can finish with exactly 201 - N left, the N oldest being gone |
| ConcurrentStore.NewestAllAlongExactlyWhen | server/src/RTM.Infrastructure/InMemoryTransactionStore.cs:70-84 | over every run, with ids and timestamps in any order, the store holds the newest of everything written at every moment if and only if every eviction hits an oldest entry or nothing and no write falls behind an evicted entry |
| EvictedEntries.LatestUnderConcurrency | server/src/RTM.Infrastructure/InMemoryTransactionStore.cs:45-56 | so at any moment, even in the middle of trims, the latest n of the store have the timestamps of the latest n of everything written, for n up to 201 - N |
| RecentWindow.AddKeepsWindow | server/src/RTM.Infrastructure/InMemoryTransactionStore.cs:29-36 | one add keeps "the store is a newest-200 window of the unbounded latest-wins history" if and only if it does not put a stored id behind an evicted entry |
| RecentWindow.StreamingWindowOfNewerVersions | server/src/RTM.Infrastructure/InMemoryTransactionStore.cs:8-20 | when stored ids are replaced only by equally new or newer versions, the store is a sub-map of the history, has min(200, history) entries, and nothing dropped is newer than anything kept |
| RecentWindow.OlderVersionLosesWindow | server/src/RTM.Infrastructure/InMemoryTransactionStore.cs:18-20 | the condition matters: with 201 transactions added and the oldest evicted, re-adding the newest under an old timestamp keeps it and leaves a newer one out |
| RecentWindow.LatestOfWindow | server/src/RTM.Infrastructure/InMemoryTransactionStore.cs:45-56 | for every n up to 200, the latest n of a window show the same timestamps as the latest n of the whole history |
| TransactionStore.InMemoryTransactionStore.GetAllAsync | server/src/RTM.Infrastructure/InMemoryTransactionStore.cs:38-43 | every stored transaction exactly once, in whatever order the dictionary enumerates |
| TransactionStore.InMemoryTransactionStore.GetByIdAsync | server/src/RTM.Infrastructure/InMemoryTransactionStore.cs:58-63 | the stored transaction of exactly that id, or nothing exactly when there is none |
| TransactionStore.InMemoryTransactionStore.AddAsync | server/src/RTM.Infrastructure/InMemoryTransactionStore.cs:29-36 | the transaction is put under its id, and of what that makes all is kept up to 200 entries and exactly 200 beyond; nothing dropped is newer than anything kept |
| TransactionStore.InMemoryTransactionStore.TrimIfNeeded | server/src/RTM.Infrastructure/InMemoryTransactionStore.cs:70-84 | whatever the order of the scan, a store of more than 200 becomes its newest 200, any other stays as it is |
| TransactionStore.InMemoryTransactionStore.GetLatestAsync | server/src/RTM.Infrastructure/InMemoryTransactionStore.cs:45-56 | as many as `count` and the store allow, none for a count of 0 or less; stored, distinct, newest first, and nothing newer left out |
| ConnectHandoff.CopiesAreFew | server/src/RTM.Api/Api/TransactionHub.cs:53-55 | no transaction is shown more than twice, and twice only those in the history that were broadcast after it was sent, at most one per writer; the bound above, counted without copies, is lower by no more than their number |
| HandoffWitnesses.GapIsReal | server/src/RTM.Api/Api/TransactionHub.cs:53-55 | a run in which a transaction persisted and broadcast between a client's history read and its send never reaches it |
| HandoffWitnesses.DoublingIsReal | client/src/hooks/useLiveTransactions.ts:40-44 | a run after which a feed holds one transaction twice |
| HandoffWitnesses.ConcurrentTrimsLoseBroadcasts | server/src/RTM.Infrastructure/InMemoryTransactionStore.cs:70-84 | the bound 201 - N is reached at a client: N writers whose transactions are older than 201 - N others can all be evicted, and a client connecting after their broadcasts is shown none of them, outside the gap |
| HandoffWitnesses.EveryNumberOfWritersLoses | server/src/RTM.Infrastructure/InMemoryTransactionStore.cs:70-84 | one such run for each N from 1 to 201, two writers included |
| LiveFeed.CutBeforeInsert | client/src/hooks/useLiveTransactions.ts:44 | cutting to n before inserting loses nothing that cutting after it keeps |
| LiveFeed.FilterCommutesWithSort | client/src/services/liveData.ts:26-29 | filtering a sorted list and sorting a filtered one give the same list, ties included |
| LiveFeed.LiveTransactions.OnInitialTransactions | client/src/hooks/useLiveTransactions.ts:35-39 | unless disposed, the list becomes the newest 200 of the history, the message joins those received, and the state is connected; in any case the list stays what folding the received messages gives |
| LiveFeed.LiveTransactions.OnTransactionReceived | client/src/hooks/useLiveTransactions.ts:40-47 | unless disposed, the list becomes the newest 200 of the transaction in front of the list, the message joins those received, and the page is notified; likewise |
| LiveFeed.LiveTransactions.Visible | client/src/hooks/useLiveTransactions.ts:62-68 | the page shows exactly the filtered batch sort of everything received, newest first, and its number |
| StableSort.SortNewestFirst | client/src/services/liveData.ts:11-15 | a permutation of the list in descending order of timestamp |
| StableSort.SortIsStable | client/src/services/liveData.ts:11-15 | transactions of equal timestamp keep their order |
| StableSort.StableSortIsUnique | client/src/services/liveData.ts:11-15 | any descending list with the same order among equal timestamps is this one, so the specification fits every stable sort |
| CacheProtocol.StraddlingFillIsStale | server/src/RTM.Domain/ITransactionCache.cs:38-45 | "never sees stale history" fails with every operation landing: a run in which a fill straddles an invalidation and nothing is under way any more |
| CacheProtocol.DroppedInvalidationIsStale | server/src/RTM.Infrastructure/TransactionCache.cs:102-109 | it also fails without any overlap, by one invalidation skipped while disconnected |
| CacheProtocol.StaleExactlyWhenChanged | server/src/RTM.Application/TransactionService.cs:80-98 | a served list differs from its pod's store if and only if that store has changed since the fill now in the cache read it |
| SingleKeyProtocol.StaleKeyHasACause | server/src/RTM.Application/TransactionService.cs:135-138 | when every refresh by a write lands, an old version in the key means that the last put is not refreshed yet, or was refreshed before a caller landed who had picked up his version before that put |
| SingleKeyProtocol.EntryStays | server/src/RTM.Infrastructure/TransactionCache.cs:60-67 | nothing but another set or a loss of the key ends it: the key has no time to live |
| SingleKeyProtocol.OvertakenRefreshIsStale | server/src/RTM.Application/TransactionService.cs:62-71 | for any two versions of one id, a run of two writes that ends quietly with the older one in the key, every operation having landed |
| SingleKeyProtocol.StraddlingFillIsStale | server/src/RTM.Application/TransactionService.cs:135-138 | for any two versions of one id, a run in which a read by id that missed sets the key to the older one after a whole write has gone by |
| CacheAside.KeysAreApart | server/src/RTM.Infrastructure/TransactionCache.cs:111 | keys of different ids differ, and only the id "all", which is no guid, has the key of the list (line 19) |
| CacheAside.ReadsByIdFindEveryVersion | server/src/RTM.Application/TransactionService.cs:125-141 | if moreover only the list key is ever lost, every processed id is found, in its last version |
| CacheAside.DisconnectedStepsUseStore | server/src/RTM.Infrastructure/TransactionCache.cs:39-109 | without a connection no operation touches the cache, whatever it holds, and every read answers from the store |
| CacheAside.ListFreshExactlyWhen | server/src/RTM.Application/TransactionService.cs:45-98 | over every sequential run, whatever the connection does, the cached list is absent or the store at every moment if and only if every write is connected, or finds no list, or leaves the store as it was |
| CacheAside.SinglesCurrentExactlyWhen | server/src/RTM.Application/TransactionService.cs:62-71 | over every sequential run, whatever the connection does, all single entries are at their last processed version at every moment if and only if every write is connected, or finds no entry of its id, or brings nothing new |
| CacheAside.ListIsLeftByARead | server/src/RTM.Application/TransactionService.cs:91-95 | the cached list was left by one `GetAllAsync`, with the store as it was and an expiry of its time plus the TTL |
| CacheAside.ProcessKeepsListFreshExactlyWhen | server/src/RTM.Application/TransactionService.cs:62-72 | a write keeps "the cached list is absent or is the store" if and only if the cache is connected, or holds no list, or the store did not change |
| CacheAside.ProcessKeepsSinglesExactlyWhen | server/src/RTM.Application/TransactionService.cs:62-71 | a write keeps all single entries at their last processed version if and only if the cache is connected, or holds no entry of that id, or this version changes nothing |
| TransactionService.TransactionCache.GetCachedAsync | server/src/RTM.Infrastructure/TransactionCache.cs:39-58 | a miss when disconnected, absent, expired or not decodable as one transaction; else that transaction |
| TransactionService.TransactionCache.SetCachedAsync | server/src/RTM.Infrastructure/TransactionCache.cs:60-67 | writes the per-id key without expiry, or nothing when disconnected |
| TransactionService.TransactionCache.GetCachedListAsync | server/src/RTM.Infrastructure/TransactionCache.cs:69-88 | a miss when disconnected, absent, expired or not decodable as a list; else that list |
| TransactionService.TransactionCache.InvalidateListAsync | server/src/RTM.Infrastructure/TransactionCache.cs:102-109 | removes the list key, or nothing when disconnected |
| TransactionService.Validate | server/src/RTM.Application/TransactionService.cs:143-164 | passes exactly the requests with a non-empty id, an amount of at least 0, a three-letter non-blank currency and a timestamp at most five minutes ahead; the first broken rule is the one reported |
| TransactionService.TransactionCache.SetCachedListAsync | server/src/RTM.Infrastructure/TransactionCache.cs:90-100 | writes the key "t:all" with the list, to expire the list TTL from now, or nothing when disconnected |
| TransactionService.TransactionService.ProcessAsync | server/src/RTM.Application/TransactionService.cs:45-78 | a rejected request changes nothing and announces nothing; a default timestamp passes validation and is then thrown by the constructor of `Transaction`, changing nothing; otherwise the store has the new entry and at most 200, and, when connected, "t:" and the id has the transaction without expiry and "t:all" is gone; and the transaction is announced |
| TransactionService.TransactionService.GetAllAsync | server/src/RTM.Application/TransactionService.cs:80-98 | if the list can be read from the cache, that list and no change; else a listing of the store, which when connected becomes the cached list, to expire after the TTL |
| TransactionService.TransactionService.GetLatestAsync | server/src/RTM.Application/TransactionService.cs:100-123 | the newest `count` of the cached list if that can be read, else of the store; changes nothing |
| TransactionService.TransactionService.GetByIdAsync | server/src/RTM.Application/TransactionService.cs:125-141 | the cached transaction if it can be read, and no change; else the stored one or nothing, and a stored one is cached when connected |
| CacheProvider.InMemoryCacheProvider.SetAsync | server/src/RTM.Infrastructure/InMemoryCacheProvider.cs:22-30 | the key gets the value and the stamp now + expiry, or none |
| CacheProvider.InMemoryCacheProvider.GetAsync | server/src/RTM.Infrastructure/InMemoryCacheProvider.cs:32-46 | the unexpired value; an entry is expired from the instant of its stamp on, and is then deleted |
| CacheProvider.EntriesAreExactly | server/src/RTM.Infrastructure/InMemoryCacheProvider.cs:32-46 | whatever the clock does, a key is there, as last written, exactly until a read finds that write expired or it is removed |
| CacheProvider.LazyDeletionIsInvisible | server/src/RTM.Infrastructure/InMemoryCacheProvider.cs:36-43 | in particular lazy deletion cannot be observed on any trace whose clock never goes back |
| CacheProvider.ClockGoingBackIsVisible | server/src/RTM.Infrastructure/InMemoryCacheProvider.cs:13-16 | and it can when the clock goes back: a read after the expiry stamp takes the entry away from a later read at an earlier time |
| ConcurrentCacheProvider.ReadsAreFresh | server/src/RTM.Infrastructure/InMemoryCacheProvider.cs:32-46 | with lookup, expiry check and clean-up as separate steps of any number of callers, a value that is returned is the latest write of its key at the lookup, unexpired at the check |
| ConcurrentCacheProvider.CleanUpCanLoseAFreshWrite | server/src/RTM.Infrastructure/InMemoryCacheProvider.cs:38-42 | that exception is real: a run in which a write without expiry lands between check and clean-up and is lost |
| ConcurrentCacheProvider.ItemsAreExactly | server/src/RTM.Infrastructure/InMemoryCacheProvider.cs:38-42 | in every run a key is there, as last written, exactly from its latest write until any reader's clean-up of that key |
| RevenueTrend.GeneratePeriodLabels | client/src/services/aggregations.ts:150-199 | the stated number of labels; they are the gap-free window of the clock's day if and only if neither that day nor, for weeks, the window's first Monday lies in the years 0 to 99 |
| RevenueTrend.WindowIsInOrder | client/src/services/aggregations.ts:150-199 | a window names no bucket twice and, in four-digit years, sorts as text from old to new |
| RevenueTrend.DayReadIsDay | client/src/services/aggregations.ts:256 | only the weekly label of a day in the years 0 to 99 reads another day |
| RevenueTrend.EachMomentInOneBucket | client/src/services/aggregations.ts:134-140 | a moment's label is in the window exactly when its day is, and then at exactly one place |
| RevenueTrend.AggregateRevenueByPeriod | client/src/services/aggregations.ts:117-141 | empty when nothing is completed; else one bucket per label with that label's completed sum, labelled with the window and adding up to the completed amounts in it (for the clocks of `GeneratePeriodLabels`) |
| RevenueTrend.WindowHoldsToday | client/src/services/aggregations.ts:150-199 | a window contains the label of every moment of its day (for weeks, exactly outside the years 0 to 99) |
| RevenueTrend.SumByLabel | client/src/services/aggregations.ts:126-130 | each label's entry is the completed sum of the transactions with that label, and absent labels sum to zero |
| RevenueTrend.AmountsAddUp | client/src/services/aggregations.ts:129 | one more transaction adds its own amount to the completed sum if it is completed and belongs there, and nothing else |
| RevenueTrend.TrendAgreesWithTable | client/src/services/aggregations.ts:117-303 | the trend adds up the same money as the currency table |
| PeriodLabels.LabelsAreInjective | client/src/services/aggregations.ts:202-225 | different days, weeks, months or years never share a label, in any year |
| PeriodLabels.SameWeekSameLabel | client/src/services/aggregations.ts:253-264 | outside the years 0 to 99, two moments share a weekly label exactly when their Monday-to-Sunday weeks begin on the same Monday |
| PeriodLabels.WeekStartIsMonday | client/src/services/aggregations.ts:230-236 | `toWeekStart` gives the Monday of the same week, outside the years 0 to 99 |
| PeriodLabels.WeekStartHasWeekLabel | client/src/services/aggregations.ts:217-236 | `formatWeekly(toWeekStart(d))` is the weekly label of any moment of d's day if and only if that Monday lies outside the years 0 to 99; for d itself in those years, if and only if its weekday comes no later than that of the day `Date.UTC` makes of it |
| PeriodLabels.WeekNumberRange | client/src/services/aggregations.ts:222-223 | week numbers lie in 1 to 53 |
| PeriodLabels.LabelsSort | client/src/services/aggregations.ts:114 | in four-digit years labels sort as text in the order of their buckets, for every period |
| IsoWeeks.ThursdayYearIsIsoYear | client/src/services/aggregations.ts:218-221 | the year in a label is the ISO week-year of section 3.2.2 of ISO 8601:2004, and no other year is |
| IsoWeeks.FourthOfJanuary2027 | client/src/services/aggregations.ts:222-223 | Monday 4 January 2027 is in ISO week 1 and is labelled 2027-W02 |
| UtcCalendar.YearFromDay | client/src/services/aggregations.ts:221 | the only year whose first day is at or before the day and whose successor's is after it (section 15.9.1.3 of ECMA-262 5.1) |
| UtcCalendar.SetDateMoves | client/src/services/aggregations.ts:161 | `setUTCDate` moves by whole days across the ends of months and years |
| UtcCalendar.MonthIsInterval | client/src/services/aggregations.ts:246 | a day is in a month exactly when it lies between that month's first and the next one's |
| UtcCalendar.ThroughUtcIs | client/src/services/aggregations.ts:219 | passing a date through `Date.UTC` leaves it as it is exactly outside the years 0 to 99, which become 1900 to 1999 |
| UtcCalendar.FieldsCount | client/src/services/aggregations.ts:244-246 | year, month and date of a day count it on from the first of its month |
| UtcCalendar.DateUtcCounts | client/src/services/aggregations.ts:184 | `Date.UTC` carries months over to years and dates over to months, negative indices included, and reads the years 0 to 99 as 1900 to 1999 |
| UtcCalendar.WeekDaysFollow | client/src/services/aggregations.ts:159 | weekdays follow one another from Thursday, 1 January 1970 |
| UtcCalendar.DayHasItsMilliseconds | client/src/services/aggregations.ts:243 | the day of an instant is the one whose 86400000 milliseconds it falls into |
| LabelParsers.MonthlyRoundTrip | client/src/components/RevenueTrendChart.tsx:93-97 | `parseMonthly(formatMonthly(d))` is the first of d's month in the years 1000 to 9999 and null in all others |
| LabelParsers.PrintersUndoParsers | client/src/services/aggregations.ts:202-214 | on generated labels of those years the printers undo the parsers |
| LabelParsers.LabelsRead | client/src/services/aggregations.ts:242-266 | in the years 1000 to 9999 the daily, monthly and yearly labels are the UTC year, month and date in four, two and two digits with dashes |
| LabelParsers.WeeklyLabelReads | client/src/services/aggregations.ts:253-264 | and the weekly label is the ISO week-year in four digits, "-W", and in two digits the ISO week number, plus one in the late years |
| LabelParsers.ParseDailyReads | client/src/components/RevenueTrendChart.tsx:87-91 | `parseDaily` accepts exactly four, two and two digits with dashes, and makes of them the day that `Date.UTC` makes, odd months and dates carried over |
| LabelParsers.ParseMonthlyReads | client/src/components/RevenueTrendChart.tsx:93-97 | `parseMonthly` likewise with four and two digits |
| Aggregations.AggregateCurrencyStatus | client/src/services/aggregations.ts:284-303 | one row for exactly each currency that appears, with its sum per status, in the order of the collation |
| Aggregations.KpisIgnoreOrder | client/src/services/aggregations.ts:36-60 | the key figures are the same for every permutation of the list |
| Aggregations.TableIgnoresOrder | client/src/services/aggregations.ts:284-303 | so is the table, under a collation that tells all currencies apart |
| Aggregations.AggregateKpis | client/src/services/aggregations.ts:36-60 | the total, the number of transactions of each status, the completed sum of exactly the currencies that have a completed transaction, and 100 times the completed among the completed and failed, 0 when there are none |
| Aggregations.AggregateStatusCounts | client/src/services/aggregations.ts:75-90 | the number of transactions of each of the three statuses |
| Aggregations.SumsAddUp | client/src/services/aggregations.ts:48 | one more transaction adds its own amount to the sum of its currency and status, and to no other |

## Left out

- React components, charts, tables, toasts, `formatAxisLabel`, `formatTooltipLabel`, currency formatting: display only.
- SignalR transport, reconnects, axios, the Redis driver, dependency injection and hosting: foreign code. Redis is a
  timed map whose operations may be dropped, SignalR one FIFO queue per client.
- JSON: a lossless codec; a document of the wrong kind decodes as a miss. What the Redis driver makes of
  `TimeSpan.Zero` is foreign: per-id keys are taken as stored without expiry, as the comment in `RedisCacheProvider`
  says, and so is the effect of a configured list TTL of zero or less.
- Parsing of date texts, invalid dates, the limits of JavaScript's date range, and the sub-millisecond part of server
  timestamps: timestamps are integers.
- Floating-point amounts and the width of `decimal`: amounts and rates are exact reals.
- `normalizeStatus`: a lookup; statuses are four-valued here.
- `localeCompare`: a parameter, any total preorder on strings.
- A plain object's inherited keys as currencies in `completedRevenue`: the record is a map.
- The `ConnectedClients` counter, logging, cancellation, faults of the store, null currencies, request annotations.
- Weakly consistent enumeration within one scan of the dictionary: a scan is one atomic step; write, check, scan and
  removal are separate ones.
- Re-running of the feed's effect when its callback changes: the list of one subscription is modelled.
- `useIngestTransaction`: small.
- ConnectHandoff.HandoffHasNoOtherGap: takes ids as distinct, queues as FIFO, and histories from one server's store or
  from a list that one of its own fills took to the cache; how old such a list can be is the subject of `CacheProtocol`.
  N is the number of writers at work at once.
- CacheProtocol.StalenessHasACause: covers one pod; with several, a pod that has not stored the others' transactions
  differs from the list by design. `CacheProtocol.StaleExactlyWhenChanged` has no such restriction.
- SingleKeyProtocol.CurrentExactlyWhen: speaks of one pod and one id.
- EvictedEntries.MissingAreOutnumbered: for distinct ids; re-adding a stored id under an older timestamp can hide newer
  ones even without concurrency, as `RecentWindow.OlderVersionLosesWindow` shows.
- CacheAside.CacheIsTransparent: constant connectivity; with any other, `CacheAside.ListFreshExactlyWhen` states exactly
  when the cached list stays fresh.
- ConcurrentStore.SettlesOnNewest: only for new ids arriving in time order; `EvictedEntries` and
  `ConcurrentStore.NewestAllAlongExactlyWhen` need no time order.
- PeriodLabels.LabelsSort: four-digit years only, as text order and number order part elsewhere.
- PeriodLabels.WeekNumberRange: not for week-years 0 to 99, whose anchor is nineteen centuries off.
