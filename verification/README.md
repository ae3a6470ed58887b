# NodeHarvest: a verified model of its core

NodeHarvest collects proxy nodes, tests them, and publishes the good ones. This project
models the parts of it whose correctness is not visible in any single function, and
proves what they promise for every input, every run or every reachable state.

| file | what it models |
|---|---|
| `TaskTable.dfy` | the `task_queue` table: every SQL statement of the durable queue as a function on tables, and the store class whose methods carry them out |
| `TaskProtocol.dfy` | any number of worker loops sharing that table: lease, heartbeat, complete, the two halves of FailTask, cancel, purge, crash, and database calls that fail before or after they commit |
| `TokenBucket.dfy` | the per-key rate limiter and its sweep of idle visitors |
| `UniqueNames.dfy` | the memoised unique-name allocator, the Clash profile and the raw subscription built with it |
| `Sequences.dfy`, `Text.dfy`, `Wrappers.dfy` | filtering, truncation and stable sorting, how they commute, and who makes it into a truncated ranking; text order, case and decimal numerals; the Option type |
| `Publish.dfy` | the store's listing, the quality filter, the live selection by country, and the per-country cache |
| `DialCandidates.dfy` | the two-pass quota allocator that chooses nodes to dial |
| `Identity.dfy` | the canonical string behind a node's key |
| `Cleaner.dfy` | the deduplicating fold over collected nodes |
| `JobPaging.dfy` | keyset pagination of jobs while jobs are saved and deleted |
| `NodeParts.dfy`, `StoreMeaning.dfy`, `NodeStore.dfy` | the in-memory store on real objects: deep copies made object by object, and what replace, upsert, list and prune mean |
| `StoreScript.dfy`, `StoreSession.dfy` | a caller that shares the heap with the store: everything it can do, and what can be read after each move |

How the model relates to the program:

- A step of the task protocol is one SQL statement or one committed transaction; SQLite's
  single connection (`internal/db/sqlite.go:75-76`) makes them serial. Times are integers,
  because the stored text has a fixed width and zone (`internal/db/sqlite.go:1031-1036`).
- Worker ids are distinct and a loop runs one task at a time, as `internal/queue/queue.go:68-75`
  and `84-110` arrange. `TaskProtocol.SharedWorkerIdOverrunsBudget` shows that the first is needed.
- EnqueueTask accepts any status a caller hands it. Handing it `running` makes a running row
  without worker and lease, which nobody can take, finish or reclaim; `TaskProtocol.EnqueueKeepsRowsOk` proves
  that this is exactly what breaks the row invariant. Fencing and all budgets are proved for runs in which
  callers do it too (`TaskProtocol.ReachableRowsSound`); only `TaskProtocol.ReachableRowsOk` excludes them.
- The measure behind the bound on status changes counts nothing on a finished row: cancelling a
  queued task that has used no attempt is a change too, and a measure that depended on the attempts
  alone would not fall there.
- Tokens, rates, scores and latencies compared as numbers are reals or integers; float rounding is not modelled.
- Upper and lower case act on ASCII letters. SHA-256 and SHA-1 are not modelled: identity is proved on the
  string before hashing, and the store's results hold for any hash and any digest function.
- Engine support, IP parsing, flag emoji, protocol allow-lists and the URI rewriting of one node are
  parameters, so the results hold whatever they answer.
- A clone starts as a shallow copy that shares every part, as in the source, and each reference field is then
  replaced by a copy made object by object; that no field is forgotten is proved, not assumed.
- A node's references (sources, tags, extra options, quality, AI results, dial result, purity) are objects
  of their own. How a node reads ignores what a copy drops: missing probe results and checks, the checks of a
  check, and the difference between an empty and a missing list.
- The loops of pickDialCandidates go on with nothing to take where the source breaks off; an allocator that
  is full takes nothing.

Two promises hold under a condition:

- Sweeping idle visitors is invisible to a key, whatever rates other keys have, exactly when ten minutes refill
  that key's bucket (`TokenBucket.EvictionHiddenExactly`); for a slower rate the drained-then-idle caller of
  `TokenBucket.Probe` tells the two limiters apart.
- For ISO country codes, and under the score order without TLS preference or with a listing that was not cut,
  what the cache serves for a country is a prefix of the live selection when the global selection did not come
  from a fallback (`Publish.ServedAgreesWithLive`). When it did, the live selection of every country is empty,
  and the promise holds exactly when no node of that country makes it into the fallback, which
  `Publish.Publishes` decides from the nodes and the configuration (`Publish.FallbackAgreesExactly`). A store with
  one US node of score 60, under a minimum of 70 and with dialing off, breaks it (`Publish.FallbackWitness`).
  The fallback condition is exact. The order condition is sufficient and cannot be dropped: under the latency order
  with a cut listing four nodes break the promise (`Publish.OrderMatters`, `Publish.CrowdsExist`).

One option does nothing: `KeepUntested` of the store's Prune (internal/store/store.go:690-698) is documented as a
choice about untested nodes, but no branch that drops a node can be reached by an untested one. The model
follows the code and leaves the option out.

## Model

| member | source | states |
|---|---|---|
| `TaskTable.TaskStore.EnqueueTask` | internal/db/tasks.go:45-94 | refuses for a missing type, a full queue or a taken id, in that order, leaving the table alone; otherwise adds one row with no worker, lease or attempts, three attempts by default, leasable at once unless it is delayed |
| `TaskTable.TaskStore.LeaseTask` | internal/db/tasks.go:96-149 | finds no row exactly when no queued row is due and every expired row is out of attempts, and then the table is unchanged by rollback; otherwise the leasable row of highest priority, then oldest, then first id runs under the worker for the time asked, two minutes by default, one attempt further |
| `TaskTable.LeaseMeans` | internal/db/tasks.go:96-160 | a lease changes its own row and those whose lease has run out: those become dead if out of attempts and due at once if not |
| `TaskTable.ReclaimMakesDue` | internal/db/tasks.go:151-160 | after the reclaim the due rows are exactly those that were due or expired with attempts left |
| `TaskTable.FirstExists` | internal/db/tasks.go:112-114 | any non-empty set of rows has a first one by priority, creation time and id |
| `TaskTable.BestUnique` | internal/db/tasks.go:112-114 | the order names at most one best row |
| `TaskTable.PrecedesTotal` | internal/db/tasks.go:112-114 | of two different rows exactly one precedes the other |
| `TaskTable.PrecedesTransitive` | internal/db/tasks.go:112-114 | the queue order is transitive |
| `TaskTable.TaskStore.RenewTaskLease` | internal/db/tasks.go:204-217 | extends the lease of a row running under this worker by the time asked from now, reports whether it did, and touches nothing else |
| `TaskTable.TaskStore.FinishTask` | internal/db/tasks.go:244-260 | ends a row running under this worker, else reports that it is not leased |
| `TaskTable.TaskStore.CompleteTask` | internal/db/tasks.go:200-202 | completes exactly a row running under this worker |
| `TaskTable.TaskStore.FailRead` | internal/db/tasks.go:223-229 | the read half of FailTask: the row if this worker holds it, otherwise which error |
| `TaskTable.TaskStore.FailWrite` | internal/db/tasks.go:230-242 | the write half: dead after the last attempt, else queued for 2^(attempt-1) times the base from now, five seconds by default, deciding on the row seen earlier; the retry branch reports success even when it changed no row |
| `TaskTable.BackoffClosedForm` | internal/db/tasks.go:237 | the n-th doubling of the base is 2^n times the base |
| `TaskTable.TaskStore.CancelTask` | internal/db/tasks.go:262-277 | cancels queued and running rows only |
| `TaskTable.TaskStore.PurgeFinished` | internal/db/sqlite.go:1115-1115 | a row is deleted exactly when it is completed, dead or canceled and was last changed before the cutoff; each row that is left is the row it was |
| `TaskTable.PurgeInvisibleToQueue` | internal/db/sqlite.go:1115-1115 | a purge changes neither the pending rows nor whether anything can be leased nor which row a lease takes |
| `TaskProtocol.NoTakeover` | internal/db/tasks.go:127-130 | only a worker's own lease gives it a row; no other step moves a row or its attempts under it |
| `TaskProtocol.FencedStep` | internal/queue/queue.go:84-131 | every step keeps for each worker: if it holds the row it works on, it holds the attempt it works on |
| `TaskProtocol.FencedRun` | internal/queue/queue.go:84-131 | so does every run, whatever callers enqueue |
| `TaskProtocol.InvariantHolds` | internal/db/tasks.go:45-277 | sound rows and fencing survive every legal run |
| `TaskProtocol.ReachableRowsSound` | internal/db/tasks.go:45-277 | in every reachable state a row respects the row invariant, or was enqueued as running and never taken |
| `TaskProtocol.ReachableRowsOk` | internal/db/tasks.go:127-159 | in every reachable state queued rows have attempts left, attempts never exceed the maximum, and worker and lease are set exactly on running rows |
| `TaskProtocol.Fencing` | internal/queue/queue.go:84-131 | in every run, a busy worker whose task is running under it has the row's current attempt |
| `TaskProtocol.StaleWorkerIsHarmless` | internal/db/tasks.go:200-260 | a worker whose task moved on to another attempt changes nothing by renewing, completing or failing |
| `TaskProtocol.LeaseProtects` | internal/db/tasks.go:106-130 | until the time a lease was asked for has passed, in any run in which neither the holder nor a cancellation gives the row up, it stays the holder's and at its attempt |
| `TaskProtocol.RenewProtects` | internal/db/tasks.go:204-217 | so it does after a heartbeat that reached the database |
| `TaskProtocol.SteadyRun` | internal/queue/queue.go:133-157 | heartbeats at a steady lease length never cut a lease short |
| `TaskProtocol.RetryWaits` | internal/db/tasks.go:230-241 | after a failed attempt k the task is given to nobody before 2^(k-1) times the retry base has passed |
| `TaskProtocol.EnqueueWaits` | internal/db/tasks.go:62-65 | a task enqueued for a later time is given to nobody before it |
| `TaskProtocol.PhasesMean` | internal/queue/queue.go:84-131 | a worker is busy from the lease it learns of until it completes, fails or crashes, and no other worker's step changes that |
| `TaskProtocol.EnqueueKeepsRowsOk` | internal/db/tasks.go:58-60 | an accepted enqueue keeps the row invariant if and only if the requested status is not running |
| `TaskProtocol.SharedWorkerIdOverrunsBudget` | internal/db/tasks.go:223-241 | with two loops of one name: after one reads its row, its lease expires and the other leases the same row, the first one's write puts the row back in the queue with no attempts left |
| `TaskProtocol.PendingGrowsByEnqueue` | internal/db/tasks.go:74-93 | only an accepted enqueue makes a row queued or running |
| `TaskProtocol.PendingBound` | internal/db/tasks.go:74-93 | with a fixed positive limit, queued and running rows together never exceed it in any run |
| `TaskProtocol.TerminalRowsFrozen` | internal/db/tasks.go:85-277 | a finished row that no purge of the run reaches is still there, unchanged, in any run, even one that enqueues its id again |
| `TaskProtocol.GoneUntilEnqueued` | internal/db/tasks.go:85-92 | a row that is gone stays gone until its id is enqueued |
| `TaskProtocol.ReleaseSpends` | internal/db/tasks.go:151-159 | every way out of running lowers what the row can still spend on status changes, completions and delay |
| `TaskProtocol.ClaimSpends` | internal/db/tasks.go:127-130 | taking a row spends exactly one status change and one lease of what is left |
| `TaskProtocol.RetrySpends` | internal/db/tasks.go:230-241 | a retry's delay is paid out of the row's remaining delay, even if other steps came between read and write |
| `TaskProtocol.LedgerBalances` | internal/db/tasks.go:45-277 | over any run, what was spent on a task and what is left of it never exceeds what it had and what accepted enqueues granted |
| `TaskProtocol.TaskBudget` | internal/db/tasks.go:96-277 | from the empty table, no run spends more on a task than its accepted enqueues granted |
| `TaskProtocol.BudgetByAccepted` | internal/db/tasks.go:96-277 | in every run a task has at most two status changes per attempt its accepted enqueues allow, so many executions, and one successful completion per accepted enqueue |
| `TaskProtocol.OneEnqueueBudget` | internal/db/tasks.go:219-260 | a task accepted at most once, however often it is submitted, has at most 2*max_attempts status changes, max_attempts executions, one successful completion and (2^(max_attempts-1)-1)*base of total backoff |
| `TaskProtocol.AcceptedOnce` | internal/db/tasks.go:85-92 | while its row is not deleted an id is accepted at most once |
| `TaskProtocol.BudgetWithoutPurges` | internal/db/tasks.go:45-277 | in a run without purges these bounds hold for every task, however often its id is submitted |
| `TokenBucket.Limiter.constructor` | internal/middleware/ratelimit.go:25-39 | non-positive rate and burst get their defaults, and the limiter starts without visitors |
| `TokenBucket.Limiter.AllowRate` | internal/middleware/ratelimit.go:59-85 | answer and new visitors are those of one refilled and clamped bucket, a new key starting one short of full |
| `TokenBucket.Limiter.Cleanup` | internal/middleware/ratelimit.go:41-53 | removes exactly the visitors idle for more than ten minutes |
| `TokenBucket.IdleLooksFresh` | internal/middleware/ratelimit.go:74-78 | a visitor idle past the limit has a full bucket if ten minutes refill one |
| `TokenBucket.EvictionSimulated` | internal/middleware/ratelimit.go:41-85 | a limiter that forgot an idle key answers its every later request like one that did not, with conditions on that key's requests only |
| `TokenBucket.EvictionUnobservable` | internal/middleware/ratelimit.go:41-85 | sweeping at arbitrary times changes no answer to a key each of whose requests has a rate that refills its burst in ten minutes, whatever other keys do |
| `TokenBucket.ProbeEvicted` | internal/middleware/ratelimit.go:41-53 | the sweeping limiter admits a second full burst after ten idle minutes |
| `TokenBucket.ProbeRefused` | internal/middleware/ratelimit.go:59-85 | the limiter without sweeps refuses part of it when the rate is too slow |
| `TokenBucket.EvictionHiddenExactly` | internal/middleware/ratelimit.go:41-85 | for a key with fixed rate and burst and other keys with any, sweeps are invisible to it in all runs if and only if 600*rps >= burst |
| `TokenBucket.StepWithin` | internal/middleware/ratelimit.go:59-85 | a step keeps the bucket between empty and full, and admissions are paid from tokens and elapsed time |
| `TokenBucket.WindowBound` | internal/middleware/ratelimit.go:59-85 | after any history, a window of length d admits at most burst + rps*d requests of a key, and its tokens stay in [0, burst] |
| `TokenBucket.PatientCallerNeverRefused` | internal/middleware/ratelimit.go:59-85 | a caller whose requests are at least 1/rps apart is never refused, with or without sweeps |
| `TokenBucket.RefusalIsFree` | internal/middleware/ratelimit.go:74-84 | a refused request costs nothing: for a key with fixed rate and burst, leaving it out of any run changes no other answer to the key |
| `TokenBucket.RefusalIsFreeSwept` | internal/middleware/ratelimit.go:41-85 | the same with sweeps, when ten minutes refill the key's bucket |
| `UniqueNames.SuffixedInjective` | internal/exporter/exporter.go:249-249 | different suffix numbers give different names |
| `UniqueNames.SuffixedMeans` | internal/exporter/exporter.go:249-249 | a suffixed name is the base, " #" and the number |
| `UniqueNames.SanitizeMeans` | internal/exporter/exporter.go:649-656 | quotes become apostrophes and line breaks spaces, other names stay, and a blank name becomes its position |
| `UniqueNames.UniqueMeans` | internal/exporter/exporter.go:243-259 | the name handed out is the base if free and else the base with the least free number from 2 |
| `UniqueNames.AheadShrinks` | internal/exporter/exporter.go:248-254 | each collision leaves strictly fewer used names ahead, so the search ends |
| `UniqueNames.FreeSuffix` | internal/exporter/exporter.go:248-254 | the search finds the least unused suffix at or after its start |
| `UniqueNames.Names.Claim` | internal/exporter/exporter.go:243-259 | the memoised search ends and returns what the naive one would: the sanitised base if free, else the least unused suffix from 2 |
| `UniqueNames.ClaimsDistinct` | internal/exporter/exporter.go:243-259 | over any sequence of claims, names are new, pairwise distinct and remembered |
| `UniqueNames.ClaimsAppend` | internal/exporter/exporter.go:243-259 | names depend only on the claims before them |
| `UniqueNames.ProfileWellNamed` | internal/exporter/exporter.go:206-241 | a profile's proxy names are distinct and not reserved, the group lists exactly them in order under a name of its own, even when nodes are skipped after claiming a name |
| `UniqueNames.BuildClash` | internal/exporter/exporter.go:206-241 | the loop with shared maps builds the profile of the naive naming |
| `UniqueNames.ProfileComplete` | internal/exporter/exporter.go:211-221 | every node that converts has a proxy |
| `UniqueNames.ProfileAlone` | internal/exporter/exporter.go:211-221 | a node alone keeps its sanitised name unless it is reserved |
| `UniqueNames.UniqueNotBlank` | internal/exporter/exporter.go:329-338 | a claimed name is never blank, so the proxy keeps it |
| `UniqueNames.RenderRaw` | internal/exporter/exporter.go:122-135 | one renamed line for every node with a URI, names claimed in order |
| `UniqueNames.RawLine` | internal/exporter/exporter.go:126-133 | a node with a URI gives one line ended by a line break, and one without gives nothing |
| `UniqueNames.RawBodyPrefix` | internal/exporter/exporter.go:122-135 | rendering more nodes only appends to the body |
| `Sequences.SortSorts` | internal/filter/filter.go:52-85 | the stable sort sorts and rearranges |
| `Sequences.SortFilter` | internal/filter/filter.go:52-85 | stable sorting commutes with filtering |
| `Sequences.FilterLimit` | internal/store/store.go:310-312 | filtering a truncated list is a prefix of truncating the filtered list |
| `Sequences.SortedUnique` | internal/store/store.go:299-309 | under an order that separates elements there is one sorted arrangement |
| `Sequences.StableSort` | internal/filter/filter.go:52-85 | stably sorting a sorted listing is sorting by the new order with ties in listing order |
| `Sequences.TopByRank` | internal/store/store.go:299-312 | an element is in the truncated sorted list exactly when fewer elements than the limit come before it |
| `Publish.ListOrderIrrelevant` | internal/store/store.go:288-314 | the listing does not depend on the order the map yields nodes in |
| `Publish.Apply` | internal/filter/filter.go:12-46 | the filter loop, sort and cap compute the filtered, ranked and truncated list |
| `Publish.SelectPublishNodesCountry` | internal/service/service.go:1872-1927 | the selection, with its two fallbacks, second truncation and renaming, is the composed function; everything in it is a stored node, at most renamed, that meets the publishing rules on its fields |
| `Publish.SelectedQualify` | internal/service/service.go:1890-1915 | whoever is selected was verified and dialed in time by the engine when dialing is on, is alive if that is asked, has the configured score, was seen recently, is of the country and passes the quality filter, or meets the fallback's own rules |
| `Publish.QualifiedSelected` | internal/service/service.go:1890-1919 | when the limits are no smaller than the store, every node that meets those rules is selected |
| `Publish.SelectedSize` | internal/service/service.go:1917-1919 | no more are selected than either limit allows |
| `Publish.RulesMatch` | internal/store/store.go:488-551 | the listing's filter is the publishing rules and the country, equal up to case with UK for GB and a missing country for XX |
| `Publish.AppliedInOrder` | internal/filter/filter.go:48-86 | the filter's result is in the configured order: TLS first if preferred, then by score, protocol, name or latency with latency deciding ties |
| `Publish.ListInOrder` | internal/store/store.go:299-309 | a listing goes down in score, then up in latency, name and id |
| `Publish.ApplyCountryNamePrefix` | internal/service/service.go:1920-1947 | every selected node is renamed in place and in order |
| `Publish.FlaggedMeans` | internal/service/service.go:1929-1947 | renaming puts the country's flag before the trimmed name once, changes nothing else, and does nothing without a country or flag |
| `Publish.GroupByCountry` | internal/publish/cache.go:104-116 | groups are the countries' parts of the list in order, with matching counts |
| `Publish.SortByCount` | internal/publish/cache.go:148-154 | the exchange sort is a rearrangement with counts descending |
| `Publish.CapCountries` | internal/publish/cache.go:141-164 | keeps whole groups, as many as allowed, and drops a country only for ones with at least as many nodes |
| `Publish.Update` | internal/publish/cache.go:98-173 | the rebuilt cache holds all nodes, exact counts and the groups of the largest known countries |
| `Publish.SameCountryTest` | internal/store/store.go:498-513 | for ISO codes the store's country filter and the cache's grouping agree |
| `Publish.CandidatesByCountry` | internal/store/store.go:288-314 | a country's candidates are the country's part of the global candidates |
| `Publish.RankedByCountry` | internal/filter/filter.go:12-86 | ranking the truncated global list and taking a country gives a prefix of ranking that country |
| `Publish.PublishedByCountry` | internal/service/service.go:1916-1919 | the same through both later truncations, with equality when nothing was cut |
| `Publish.CacheAgreesWithLive` | internal/service/service.go:1872-1927 | each cached country list is a prefix of the live selection of that country, equal when the global selection was not truncated |
| `Publish.PublishedExactly` | internal/service/service.go:1905-1919 | a node is published from a listing exactly when it matches, few enough matching nodes rank before it, the filter keeps it, and few enough kept ones rank before it for both limits |
| `Publish.FallbackAgreesExactly` | internal/service/service.go:1906-1915 | when the global selection is a fallback the live country selection is empty, so the cached list is a prefix of it if and only if no node of the country makes it into the fallback |
| `Publish.FallbackDisagrees` | internal/service/service.go:1906-1915 | any usable node that only the fallback publishes, alone in the store, is cached for its country and not served live |
| `Publish.FallbackWitness` | internal/service/service.go:1906-1915 | there is a store and a configuration for which the promise fails |
| `Publish.SpellingIrrelevant` | internal/publish/cache.go:308-314 | a request in any case, with spaces or as UK, selects live what its normalised code selects |
| `Publish.NormalizeMeans` | internal/publish/cache.go:308-314 | a normalised country is the trimmed one in upper case, with GB for UK |
| `Publish.SelectOrderIrrelevant` | internal/service/service.go:1872-1927 | the selection does not depend on the order the store yields its nodes in |
| `Publish.Lookup` | internal/publish/cache.go:264-293 | the cache answers a blank request with all nodes, a cached country with its list, and any other with nothing |
| `Publish.ServedAgreesWithLive` | internal/publish/cache.go:98-164 | what the rebuilt cache serves for a request, however spelled, is a prefix of the live selection for it from the same nodes in any order, and all of it when nothing was truncated |
| `Publish.CachedAndLive` | internal/service/service.go:1872-1927 | end to end: select, rebuild the cache, look up, and compare with the live selection of the same request |
| `Publish.CachedBodyIsPrefix` | internal/publish/cache.go:158-164 | the raw body rendered from what the rebuilt cache holds for a request is a prefix of the one rendered live |
| `Publish.OrderMatters` | internal/filter/filter.go:75-84 | under the latency order with a cut listing the cache serves a node that is not served live |
| `Publish.CrowdsExist` | internal/filter/filter.go:75-84 | there are four nodes and a configuration with dialing on for which this happens |
| `DialCandidates.RankingDistinct` | internal/service/service.go:1436-1474 | ranking keeps ids distinct |
| `DialCandidates.FirstPass` | internal/service/service.go:1493-1515 | the first loop takes a node exactly when room, country quota and server quota allow |
| `DialCandidates.SecondPass` | internal/service/service.go:1516-1534 | the second loop takes exactly the remaining nodes that room and three per server allow |
| `DialCandidates.PickDialCandidates` | internal/service/service.go:1399-1536 | only nodes that may be dialed are picked, and in unlimited mode all of them; a node that is better in one respect precedes the other in unlimited mode, and in limited mode is picked whenever the other is under the same quotas |
| `DialCandidates.PreferredRanks` | internal/service/service.go:1444-1474 | higher score, verified, no failed dial, a favoured protocol, and a plausible latency each rank higher, all else equal |
| `DialCandidates.LimitedPreference` | internal/service/service.go:1485-1535 | the two passes pick no node without one that is preferred to it under its quotas |
| `DialCandidates.PassesGreedy` | internal/service/service.go:1496-1533 | a node is passed over only when there is no room, its country and protocol quota is used up, or two, later three, of its server are taken |
| `DialCandidates.PerKeyNumbers` | internal/service/service.go:1486-1492 | the quota per country and protocol is an eighth of the limit and two, at least 3 and at most 12 |
| `DialCandidates.SharedQuota` | internal/service/service.go:1501-1505 | nodes share a quota exactly when they agree on the protocol and, up to case, on the country, a missing one being XX |
| `DialCandidates.FirstPassCaps` | internal/service/service.go:1485-1515 | the first pass stays within the limit, the quota per country and protocol, and two per server |
| `DialCandidates.BothPassCaps` | internal/service/service.go:1485-1534 | both passes stay within the limit and three per server |
| `DialCandidates.ServerSaturated` | internal/service/service.go:1516-1534 | with room to spare every server contributes all it may |
| `DialCandidates.PickedExactly` | internal/service/service.go:1485-1535 | no duplicates, at most three per server, the first pass within its quota, and exactly min(maxDial, sum over servers of min(3, candidates)) nodes |
| `Identity.CanonicalExtra` | internal/model/node.go:266-282 | the non-empty entries, each once, in key order, whatever order the map yields them in |
| `Identity.FieldReadsBack` | internal/model/node.go:276-280 | a NUL-free field closed by NUL can be read back |
| `Identity.ExtraIdentity` | internal/model/node.go:266-282 | extra texts are equal if and only if the non-empty entries are equal as maps |
| `Identity.JoinCloses` | internal/model/node.go:246-262 | joining with NUL closes every field but the last |
| `Identity.Key` | internal/model/node.go:245-264 | the loops and joins compute the canonical string |
| `Identity.CanonicalIdentity` | internal/model/node.go:245-282 | for NUL-free fields, canonical strings are equal if and only if the connections are equal, up to letter case where the key ignores it, and the options are, a missing one being an empty one |
| `Identity.NulMovesBoundary` | internal/model/node.go:245-264 | a NUL inside a field moves the boundary: different connections with equal canonical strings |
| `Cleaner.AbsorbNode` | internal/cleaner/cleaner.go:36-54 | one node enters the map of best nodes as the ranking by metadata and priority says, sources merged |
| `Cleaner.Clean` | internal/cleaner/cleaner.go:12-61 | the result lists the best node of every key, each once |
| `Cleaner.CleanMeaning` | internal/cleaner/cleaner.go:12-61 | per key the earliest accepted node with the greatest (metadata score, priority) is kept, with exactly the union of the accepted nodes' sources |
| `Cleaner.CleanOrderIrrelevant` | internal/cleaner/cleaner.go:12-61 | kept keys, source unions and the kept rank depend only on which nodes are accepted, not on their order or repetition |
| `Cleaner.InputOrderIrrelevant` | internal/cleaner/cleaner.go:12-61 | cleaning the same inputs in another order keeps the same keys with the same sources and ranks |
| `Cleaner.CleanedNodes` | internal/cleaner/cleaner.go:12-143 | the same for the configured key, score and priorities |
| `Cleaner.CompetingNodes` | internal/cleaner/cleaner.go:36-41 | nodes fall together exactly when they are one connection, or one connection on any port where address ports are merged |
| `Cleaner.KeptIsBest` | internal/cleaner/cleaner.go:42-46 | no accepted competitor of the kept node has fuller metadata, nor as full with a higher source priority |
| `Cleaner.KeptIsUsable` | internal/cleaner/cleaner.go:25-34 | whatever is kept has an allowed protocol, no bad host, and a known protocol, server and port if incomplete nodes are dropped |
| `Cleaner.NormalizedMeans` | internal/cleaner/cleaner.go:63-93 | normalising renames hy2, clears control characters from the name, adds the source, and leaves the rest of the connection |
| `Cleaner.NormalizedTidy` | internal/cleaner/cleaner.go:64-73 | normalising leaves no white space at the ends of the text fields |
| `Cleaner.ScoreMetaCounts` | internal/cleaner/cleaner.go:122-143 | name, TLS, SNI, network and URI each add one to the metadata score |
| `Cleaner.CredentialsCount` | internal/cleaner/cleaner.go:133-135 | an id or a password adds one, and both no more |
| `Cleaner.PriorityMeans` | internal/cleaner/cleaner.go:14-17 | the last configured entry for a source gives its priority, and zero without one |
| `JobPaging.ListJobsPage` | internal/db/sqlite.go:374-411 | an unknown or foreign cursor is an error; otherwise the newest jobs older than the cursor, newest first |
| `JobPaging.HandleJobs` | internal/api/server.go:786-819 | the handler's page, next cursor and has-more flag from asking for one job more |
| `JobPaging.CreatedAtKept` | internal/db/sqlite.go:354-362 | no sequence of saves changes a job's creation time |
| `JobPaging.PeekDecides` | internal/api/server.go:798-819 | a job left off the page means there is a next page, whose cursor is newer than it |
| `JobPaging.PageFacts` | internal/api/server.go:786-819 | a page lists visible jobs in strictly descending order below its cursor |
| `JobPaging.WalkDescends` | internal/api/server.go:786-819 | a walk lists strictly decreasing (created_at, id), whatever changes between its requests |
| `JobPaging.NoJobTwice` | internal/db/sqlite.go:374-411 | no job that is not deleted on the way is returned twice |
| `JobPaging.NoneMissed` | internal/db/sqlite.go:374-411 | a finished walk returns every job that stays throughout |
| `JobPaging.WalkIsComplete` | internal/api/server.go:786-819 | a finished walk returns every job present throughout exactly once, in strictly descending order |
| `JobPaging.NewerMeans` | internal/db/sqlite.go:403-403 | newest first, and among jobs created at once the greater id first |
| `JobPaging.PageSizes` | internal/api/server.go:786-819 | a page shows 30 jobs by default and never more than 100, is full when there are more, and else shows all that are left |
| `JobPaging.TenantsApart` | internal/db/sqlite.go:382-393 | two tenants never see the same job |
| `JobPaging.SavedFor` | internal/db/sqlite.go:354-362 | a tenant sees only jobs it saw before or that were saved for it, those saved for nobody being the default tenant's |
| `JobPaging.WalkStaysInTenant` | internal/db/sqlite.go:382-411 | a tenant's walk lists only jobs that are its own when listed |
| `JobPaging.SavedMeans` | internal/db/sqlite.go:348-364 | saving a known job leaves its kind, options and creation time, and no save touches another job |
| `NodeParts.CopyPart` | internal/store/store.go:80-111 | copies a given object and those it refers to, one by one: the copy reads the same and reaches new objects only |
| `NodeParts.CopyProbes` | internal/store/store.go:97-103 | a new map with a new result for every result present, and none for a missing one |
| `NodeParts.CopyChecks` | internal/store/store.go:119-127 | the loop over the checks skips missing ones and gives each copied check no checks of its own |
| `NodeParts.OneSettled` | internal/store/store.go:75-111 | replacing one field of the shallow copy settles it and leaves the others settled or shared as they were |
| `NodeParts.AllSettled` | internal/store/store.go:75-111 | once every field has had its turn the clone reads like the original and refers to copies only |
| `NodeParts.CloneNode` | internal/store/store.go:71-113 | a shallow copy whose seven reference fields are replaced one after the other ends up reading the same and sharing no object with anything that existed |
| `NodeParts.TakenReads` | internal/store/store.go:189-218 | assigning references and then reading is reading and then assigning values |
| `NodeParts.ReadingTells` | internal/store/store.go:76-111 | parts that read the same agree on every plain field, list, map and check they hold |
| `NodeParts.FieldTells` | internal/store/store.go:76-111 | a node's reading covers every part it refers to |
| `StoreMeaning.ImportSettles` | internal/store/store.go:182-219 | importing a node again is importing it once |
| `StoreMeaning.ReplacedEntry` | internal/store/store.go:151-180 | an id is stored exactly when the batch names it, and the last entry naming it decides |
| `StoreMeaning.ReplacedFiled` | internal/store/store.go:158-177 | importing every batch node and then filing them by id is the replace |
| `StoreMeaning.ReplacedIndexed` | internal/store/store.go:65-69 | after a replace every node sits under its own id, which is the recomputed one |
| `StoreMeaning.ObservationsSurvive` | internal/store/store.go:182-219 | a re-imported, untested node keeps the test result, quality, tags, dial result and first-seen time of the stored one |
| `StoreMeaning.ImportTakesOver` | internal/store/store.go:182-219 | an imported node keeps what it brings itself and takes over from the stored one only what it lacks |
| `StoreMeaning.ImportNew` | internal/store/store.go:164-177 | a node the store did not know is stored as it is, dated and named |
| `StoreMeaning.IdDecides` | internal/store/store.go:65-69 | with hashes that do not collide, ids are equal exactly for equal connections and options |
| `StoreMeaning.ReplaceOwnListing` | internal/store/store.go:151-180 | writing a complete listing of a replaced store back, in any order and with repeats, changes nothing |
| `StoreMeaning.UpsertIndexed` | internal/store/store.go:221-286 | an upsert keeps the index |
| `StoreMeaning.UpsertsIndexed` | internal/store/store.go:221-286 | so does any batch of upserts |
| `StoreMeaning.UpsertIdempotent` | internal/store/store.go:221-286 | observing the same thing twice is observing it once |
| `StoreMeaning.UpsertMeans` | internal/store/store.go:221-286 | an upsert records the whole test result, quality and AI results, the tags, dial result and purity shown, and each place and date given, keeps the rest, and changes no other entry |
| `StoreMeaning.UpsertedEntry` | internal/store/store.go:221-286 | after any batch an entry records the last batch node that names it, or is what it was if none does |
| `StoreMeaning.UpsertsContinue` | internal/store/store.go:221-286 | over any batch no node is lost, its identity, name, extra and sources are untouched, and known country, dial result, tags and first-seen time are not erased |
| `StoreMeaning.VerifiedUntilDialed` | internal/store/store.go:266-278 | a verified node stays verified until a dial result says otherwise |
| `NodeStore.MergeObservations` | internal/store/store.go:182-219 | the fields and references carried over, field by field, from the stored node |
| `NodeStore.Refresh` | internal/store/store.go:228-281 | the fields and references an observation writes into the stored node |
| `NodeStore.Store.IndexByKey` | internal/store/store.go:154-157 | the lookup by key is total and unambiguous on the stored nodes |
| `NodeStore.Store.ReplaceNodes` | internal/store/store.go:151-180 | the contents become the imported batch, every stored object is new, and the caller's nodes read as imported, even when the batch repeats pointers |
| `NodeStore.Store.UpsertNodes` | internal/store/store.go:221-286 | the contents are those of folding the batch; every object the store gains is new, and the caller's nodes change in their id only |
| `NodeStore.Store.GetNode` | internal/store/store.go:316-324 | nothing exactly for an unknown id, else a new node that reads like the stored one |
| `NodeStore.Store.ListNodes` | internal/store/store.go:288-314 | new nodes that read like the stored nodes which the publishing listing names, in its order |
| `NodeStore.CappedRank` | internal/store/store.go:701-712 | what the cap drops does not rank above what it leaves by (alive, score, latency) |
| `NodeStore.SurvivorsPruned` | internal/store/store.go:679-712 | the surviving set said on the nodes' fields |
| `NodeStore.Store.Prune` | internal/store/store.go:675-720 | returns exactly the number removed, leaves at most MaxNodes, drops exactly the tested nodes that failed three times or score too low and, only when full, nodes no better than any survivor by (alive, score, latency), and keeps the survivors untouched |
| `StoreScript.TraceIndexed` | internal/store/store.go:65-69 | at every moment of every script each stored node sits under its own id, which is the recomputed one |
| `StoreScript.StandsStill` | internal/store/store.go:71-129 | between two storing calls the contents stay what they are, whatever the caller reads, makes and rewrites |
| `StoreScript.FirstSubmission` | internal/store/store.go:151-180 | a script that makes a node without references and submits it ends with exactly that node, imported, in the store |
| `StoreSession.Session.TakePart` | internal/store/store.go:71-129 | a caller making a slice, map or result out of what it can reach changes nothing that can be read |
| `StoreSession.Session.TakeNode` | internal/store/store.go:71-129 | nor does making a node, beyond holding it |
| `StoreSession.Session.ChangeNode` | internal/store/store.go:71-129 | a caller rewriting a node it holds, references included, changes neither the store's contents nor its other nodes |
| `StoreSession.Session.ChangePart` | internal/store/store.go:71-129 | rewriting any reachable slice, map or result does not change the store's contents |
| `StoreSession.Session.Get` | internal/store/store.go:316-324 | the caller gains a node that reads like the stored one and stays apart from it |
| `StoreSession.Session.List` | internal/store/store.go:288-314 | the caller gains copies that read like a listing of the contents and stays apart from the store |
| `StoreSession.Session.Submit` | internal/store/store.go:151-219 | the contents become the import of what the picked nodes read as; those then read as imported, the others as before, and all share parts only with nodes the store let go of |
| `StoreSession.Session.Observe` | internal/store/store.go:221-286 | the contents become the upsert of what the picked nodes read as; those change in their id only, and nothing the caller can reach is the store's |
| `StoreSession.Session.Shrink` | internal/store/store.go:675-720 | pruning keeps caller and store apart and the caller's nodes as they read |
| `StoreSession.Session.Step` | internal/store/store.go:71-324 | any move keeps caller and store apart and has the effect the script gives it on all that can be read |
| `StoreSession.Run` | internal/store/store.go:71-324 | from a new store, any script of storing and reading calls and of the caller's own making, sharing and rewriting of nodes and parts leaves caller and store apart at every moment, and the moments form a trace in which contents change at storing calls only, to what they and the picked nodes' values then determine |

## Left out

- The web console, HTTP handlers other than job paging, cookies, authentication and sessions.
- Dialing, purity and AI probing, fetching, geolocation and object storage: their results are arbitrary inputs.
- Parsing and printing of URIs, Clash files and YAML; `rawURIWithName` is a parameter of RenderRaw, and BuildClashProxy is reduced to whether it succeeds and which name it uses.
- File persistence, loading of snapshots, Redis locks, metrics, tracing and configuration loading.
- PostgreSQL isolation: the pending bound in particular is stated for serial transactions.
- Float rounding, NaN, and 64-bit overflow of the backoff delay or of timestamps.
- The queue's timers, context cancellation and active counter; a worker may take any enabled step at any time.
- The two listings that feed pickDialCandidates (internal/service/service.go:1400-1423): the candidates are any nodes with distinct ids.
- The filters by protocol, source, grade, AI target and search text of NodeFilter.Match: publishing does not use them.
- The in-memory job list and its paging, pageWindow and pageSlice: the handler prefers the database.
- The cache's freshness and policy checks, base64 and Clash bodies per country, and etags; Publish.Lookup answers with node lists where Format answers with rendered bodies.
- Store statistics, host AI results and jobs kept in memory.
- JobPaging.WalkIsComplete: assumes that job ids are not empty and that the job named by a cursor is not deleted before it is used, since the source answers a deleted cursor with an error.
- Cleaner.Clean: works on values, so it does not capture a batch that holds one node pointer twice, nor `append` writing into spare capacity of a shared slice.
- Publish.Update: works on values, so in-place renaming of listed nodes is not seen by other holders; ListNodes hands out copies, so there are none.
- NodeStore.Store.UpsertNodes: requires nodes that are not nil, since the source dereferences them.
