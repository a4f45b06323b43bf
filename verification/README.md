# Verified model of MicroJet's stateful core

This project models, in Dafny, the parts of MicroJet (a Go toolkit for microservices) whose behaviour
depends on interleavings, nesting or whole runs, and proves what they promise. Each module follows one
component:

| module | component |
|---|---|
| `OutboxTable`, `OutboxRelay`, `OutboxHistory`, `OutboxDrain`, `OutboxPass`, `OutboxOverlap` | the transactional outbox and any number of relays draining it |
| `Transactions` | context-carried transactions and the outbox write that joins them |
| `Limiter` | the keyed concurrency limiter |
| `Timeout` | the timeout middleware: handler, watcher and finisher racing over one response |
| `Loader`, `LoaderExpiry` | the load-through cache over the in-process cache |
| `Breaker`, `Client` | the circuit breaker, and the retry loop and back-off of the HTTP client |
| `Pagination`, `PaginationTies` | cursor and offset pages over a table, with unique cursor values and with repeated ones |
| `Strings`, `KeyFormat`, `KeyPattern` | key patterns: parsing, encoding, decoding, derived attributes |
| `Modules`, `Lifecycle`, `CloseOrder` | installing modules, initialising services, closing them |
| `Idempotency` | the idempotency middleware |

Objects that the code updates in place are classes whose methods are the code's critical sections or
loops; each is proved equal to a function of the old state. Concurrency is a step system over those
functions: an event for every critical section, channel operation, clock reading, failure and crash. A run
is any sequence of events each of which was possible when it happened, and the main results hold after
every run. `OutboxPass` and `OutboxOverlap` close the gap between the two for the outbox: whatever the
broker, the database and the context do, a pass as the code runs it is a run of the protocol, and it has
the same result however other relays, enqueues and prunes are interleaved with it. `Options` holds the
option type the modules share.

## What the environment is taken to do

- Databases answer queries and commit or roll back transactions as SQL says; FOR UPDATE SKIP LOCKED skips
  rows locked by others. Whether a statement, a commit or a publish succeeds is left open everywhere. A
  commit whose answer is lost is modelled for the relay; in `Transactions` a commit that reports an error
  has not happened.
- A clock is a parameter. Results that compare two readings assume that it does not go back.
- `singleflight.Group.Do` shares one execution per key; a mutex makes its critical section one step.
- SHA-256 does not collide; JSON and page tokens round-trip, and a field's type accepts the texts it writes.
- A goroutine switch can happen between any two steps. No fairness is assumed.

## Findings

- `Loader.Invalidate` is documented to make the next `Get` reload. It does not while a flight of the key is
  loading or about to store or return a value: a later `Get` can then be served the old value.
  `Loader.InvalidateExact` gives the exact condition, `Loader.InvalidateDuringLoad` a run.
- A cached value can be served longer than its time to live: a flight that is slow to store or to return its
  value hands an expired one to calls that join it. `LoaderExpiry.SlowStoreServesExpired` is a run,
  `LoaderExpiry.ExpiryExact` the exact condition.
- The relay's doc comment says that locking relays never publish a message twice. A pass that rolls back
  after publishing makes that false: `OutboxRelay.PublishedTwice` is a run, and
  `OutboxRelay.DuplicatesNeedRollback` says exactly how often a message is published.
- The counts the relay returns add up to the published rows only if it learns of every commit:
  `OutboxRelay.CountLost` is a run that loses a count, `OutboxRelay.ReportsAddUp` the exact condition.
- A transaction opened directly on the connection inside `RunTx` on the same database escapes the outermost
  `RunTx`: `Transactions.OwnershipExact` and `Transactions.DirectEscapesOutermost`.
- The client's back-off keeps its promise for every base from 14 ns to 2^34 ns (about 17 s). Below, it jumps
  to the cap at retry 32; from 2^34 + 1 ns on, a base can wrap around to a short wait. Which bases do is
  stated exactly: `Client.BackoffExactBases`, `Client.BackoffInRange`, `Client.BackoffCounterexamples`.
- A format that names a field twice can restore the field although it was cut wrongly on the way:
  `KeyFormat.RepeatedFieldMasksError`. The last assignment to a field wins: `KeyFormat.RestoresExactly` says so
  in terms of the texts the decoder cuts. For formats that name no field twice, `KeyFormat.DecodeRestoresExact`
  gives the condition on the format and the field texts.
- A derived attribute that reads one recomputed after it lags a pass behind, although recomputing is meant to
  rule out drift: `KeyFormat.LaterAttributeLags`. Unless patterns are computed from each other in a circle, no
  item ever drifts if and only if no pattern reads an attribute recomputed after it:
  `KeyFormat.PatternsAgreeExactly`. In a circle that can happen to work out: `KeyFormat.MutualCopiesAgree`.
- With a cursor column whose values repeat, such as the `created_at` of the documentation's example, a page
  that ends between two equal values makes the walk skip rows: `PaginationTies.EqualCursorSkipped`, with the
  exact condition in `PaginationTies.TiedWalkExact` for a table that stays as it is and in
  `PaginationTies.TiedWalkFinds` for one that changes.
- A service provided again after a stage has visited its key is not put through that stage. It can miss both
  (`Lifecycle.ProvidedAgainUnvisited`) or be initialised without having been configured
  (`Lifecycle.ProvidedBetweenStages`). `Lifecycle.VisitSawFinal` is the exact condition for one stage,
  `Lifecycle.FinalValueVisited` for both.
- The breaker's half-open branch that admits a request when no trial is active is unreachable:
  `Breaker.HalfOpenRefuses`. A trial whose result is never recorded, as when the attempt panics, therefore
  shuts the breaker for good: `Breaker.LostTrialRefusesForever`.
- A comment in the timeout middleware says that only a real deadline reaches the watcher's branch. A
  cancelled parent request reaches it, too: `Timeout.CancelledParentTimesOut` is a run, and
  `Timeout.TimeoutBranchOpen` says exactly when the branch is open.

## Model

| member | source | states |
|---|---|---|
| OutboxRelay.NoEventLost | outbox/relay.go:144-292 | in every reachable state, with any number of relays, crashes, roll-backs, enqueues and prunes, each enqueued message is in exactly one of pending, quarantined, published and pruned; no other message exists; a published or pruned one was accepted by the broker |
| OutboxRelay.DuplicatesNeedRollback | outbox/relay.go:165-254 | two relays never hold the same row, and accepted publishes of a message number exactly its rolled-back ones plus one if it is delivered or in flight |
| OutboxRelay.ExactlyOnceWithoutRollback | outbox/relay.go:23-26 | a run without a roll-back publishes each message at most once, and a delivered one exactly once |
| OutboxRelay.RollbackRepublishes | outbox/relay.go:33-36 | a delivered message whose publish was once rolled back was published at least twice |
| OutboxRelay.PublishedTwice | outbox/relay.go:23-36 | a run in which one message is published twice and delivered |
| OutboxRelay.CountLost | outbox/relay.go:159-185 | a run in which a message is delivered and no pass counts it |
| OutboxRelay.ReportsAddUp | outbox/relay.go:132-185 | the counts returned by all passes never exceed the messages marked published, those since pruned included, and equal them if and only if no relay missed a commit that marked one |
| OutboxRelay.AttemptsBounded | outbox/relay.go:262-275 | with a limit, pending rows have fewer attempts and quarantined rows exactly that many; all passes together settle at most limit-many claims per message |
| OutboxDrain.PassesBounded | outbox/relay.go:190-275 | from any moment on, if nothing is enqueued, the passes that find work number at most the attempts then left, whatever the broker does |
| OutboxDrain.EmptyClaimMeansEmpty | outbox/relay.go:190-200 | an empty claim while no row is locked means that nothing is pending |
| OutboxDrain.QueueDrains | outbox/relay.go:82-92 | a relay working alone that commits more passes than there were attempts left has emptied the queue, even if the broker never recovers |
| OutboxDrain.QueueDrainsInLimit | outbox/relay.go:82-92 | limit-many passes for each message ever enqueued, and one more, always suffice |
| OutboxDrain.ClaimPossible | outbox/relay.go:190-200 | an idle relay can always claim a batch |
| OutboxDrain.PassGoesOn | outbox/relay.go:165-226 | in every reachable state the next step of a pass under way is possible, whatever the other relays do |
| OutboxRelay.PassMakesProgress | outbox/relay.go:165-275 | every committed pass lowers the sum of remaining attempts by at least the size of its batch |
| OutboxRelay.ClaimFindsWork | outbox/relay.go:190-200 | a claim made while an unlocked pending row exists is not empty |
| OutboxRelay.SettledForGood | outbox/relay.go:256-292 | a delivered message stays delivered, a quarantined row never changes, and only published rows leave the table |
| OutboxRelay.EveryRun | outbox/relay.go:144-292 | the table, lock, ledger, report and work invariants hold after every run |
| OutboxHistory.RowsFromEvents | outbox/relay.go:234-278 | a row is a function of the events: its attempts are the refusals committed, it is published when the broker took it, and it is given up exactly when the refusals reach the limit, never without one |
| OutboxHistory.TableFromEvents | outbox/relay.go:276-292 | a message is in the table exactly when it was enqueued and no prune found it published longer ago than the retention |
| OutboxPass.Relay.constructor | outbox/relay.go:108-122 | a relay over a table, nothing published |
| OutboxPass.Relay.RecordFailure | outbox/relay.go:262-275 | adds one attempt to the row as loaded and quarantines it at the limit; a failed write changes nothing and is reported |
| OutboxPass.Relay.PublishOne | outbox/relay.go:234-254 | published-and-marked only if the broker took the message and the write succeeded; the broker keeps a message whose mark failed |
| OutboxPass.Reached | outbox/relay.go:208-226 | the loop stops at the first cancelled message and, in a transaction, after the first failed write; nowhere else |
| OutboxPass.Relay.Drain | outbox/relay.go:208-226 | table, broker log, count and error of the loop on either path |
| OutboxPass.Relay.PublishPendingLocked | outbox/relay.go:165-185 | an error of any kind returns 0 and rolls everything back, unless only the answer to COMMIT was lost; the broker keeps what it took; otherwise every message is settled and counted |
| OutboxPass.Relay.PublishPendingUnlocked | outbox/relay.go:144-157 | each write stands at once, a failed one is skipped, and only cancellation is an error |
| OutboxPass.Relay.PrunePublished | outbox/relay.go:281-292 | deletes exactly the rows published before the cutoff, returns their number, and does nothing without a retention |
| OutboxPass.DrainedAt | outbox/relay.go:208-275 | each message is settled on its own: marked, failed or unchanged |
| OutboxPass.PassIsSafe | outbox/relay.go:208-275 | a pass cut short anywhere, on either path, loses no row, publishes only what the broker accepted, changes no other row, and counts exactly the rows newly published |
| OutboxPass.PassUsesAttempts | outbox/relay.go:190-275 | a pass without write errors uses up an attempt of every message, whatever the broker does |
| OutboxPass.LockedPassIsARun | outbox/relay.go:165-254 | a locked pass, with any failures, is a run of the protocol with the same committed rows, accepted messages and returned count |
| OutboxOverlap.PassStandsAlone | outbox/relay.go:159-185 | taking the events of others out of a run leaves a run in which the relay's pass goes through the same states over the same rows |
| OutboxOverlap.InterleavedPassResult | outbox/relay.go:159-226 | however a pass of the code is interleaved with other relays, enqueues and prunes, its rows, accepted publishes and returned count are what the code computes from the table at the claim |
| OutboxOverlap.EveryPassIsOfCode | outbox/relay.go:159-226 | every pass that ends, in every run, is the code's for some outcomes of its messages and of its COMMIT, so the result above is that of every pass |
| OutboxTable.WritesSound | outbox/relay.go:247-275 | marking or failing a sound pending row leaves a sound row |
| OutboxTable.PotentialFalls | outbox/relay.go:262-275 | writes that each use an attempt lower the sum of remaining attempts by at least their number |
| Transactions.ExecMeaning | gormx/table.go:74-96 | running any nesting of writes, RunTx and direct transactions over any databases has exactly the effect that the context-free specification reads off its shape |
| Transactions.DurableRows | gormx/table.go:24-96 | a program started without a transaction leaves exactly the specified rows in every database and no transaction open |
| Transactions.OutermostOwnsCommit | gormx/table.go:69-81 | writes under the outermost RunTx become durable together exactly when it returns nil, whatever nested calls return and other databases do, under the condition that OwnershipExact shows necessary |
| Transactions.OwnershipExact | gormx/table.go:69-96 | over all nestings, that holds if and only if no transaction opened directly on the database inside commits a row |
| Transactions.DirectEscapesOutermost | gormx/table.go:83-96 | a concrete nesting in which a row survives the outermost roll-back |
| Transactions.EventIffDomainRow | outbox/outbox.go:81-104 | an event enqueued with a domain write exists if and only if the domain row does, if and only if RunTx returned nil; other databases are as they would be alone |
| Transactions.WriteMeaning | gormx/table.go:396-419 | a table write goes into the context's transaction on that database if there is one, else straight into the database |
| Transactions.NoTraceWithoutWrite | gormx/table.go:74-96 | nothing gets into a database but what an accepted statement wrote to it |
| Transactions.Results | gormx/table.go:74-81 | a nested RunTx returns what its function returned; one that owns its transaction returns nil exactly if its function did and the commit succeeded |
| Limiter.Keyed.constructor | core/limitx/keyed.go:51-56 | an empty limiter; a bound below 1 becomes 1 |
| Limiter.Keyed.Reserve | core/limitx/keyed.go:94-105 | a reference on the key's slot, created if absent |
| Limiter.Keyed.Release | core/limitx/keyed.go:109-121 | gives a reference back and drops the entry with the last one |
| Limiter.Keyed.TrySend | core/limitx/keyed.go:77-78 | a send succeeds exactly while fewer than the bound are in the channel |
| Limiter.Keyed.TryReceive | core/limitx/keyed.go:80-85 | a receive succeeds exactly while something is in the channel |
| Limiter.EveryRun | core/limitx/keyed.go:68-121 | the slot invariant holds after every interleaving of acquires, cancellations and releases |
| Limiter.KeyIsBounded | core/limitx/keyed.go:68-121 | at most the bound hold a key; everyone on a key shares one slot, whose refs is their number; a key is present exactly while someone depends on it |
| Limiter.ReleaseNeverBlocks | core/limitx/keyed.go:79-88 | the receive in a release always finds an element and the reference goes back to the slot it came from |
| Limiter.WaitersAdmitted | core/limitx/keyed.go:75-90 | a waiter can enter exactly when fewer than the bound hold its key: no capacity is lost to cancelled tickets |
| Limiter.IdleHoldsNothing | core/limitx/keyed.go:29-32 | when every ticket is done the limiter is empty |
| Limiter.TicketsFromEvents | core/limitx/keyed.go:68-92 | every call's key and phase are what its events say |
| Limiter.EntryExact | core/limitx/keyed.go:68-92 | a waiting call can enter if and only if fewer calls than the bound are inside for its key |
| Timeout.TimeoutWriter.constructor | httpx/middleware/timeout.go:30-48 | a buffering writer with a private copy of the headers |
| Timeout.TimeoutWriter.EditHeader | httpx/middleware/timeout.go:122-129 | edits go to the private headers until the response is passed through |
| Timeout.TimeoutWriter.WriteHeader | httpx/middleware/timeout.go:131-141 | records, forwards or drops a status by state |
| Timeout.TimeoutWriter.Write | httpx/middleware/timeout.go:143-155 | buffers, forwards or drops bytes by state, always acknowledging all of them |
| Timeout.TimeoutWriter.Flush | httpx/middleware/timeout.go:170-176 | reaches the connection only in pass-through |
| Timeout.TimeoutWriter.Commit | httpx/middleware/timeout.go:192-206 | sends the buffered response once |
| Timeout.TimeoutWriter.WriteTimeout | httpx/middleware/timeout.go:210-225 | sends the 503 once, and only while buffering |
| Timeout.TimeoutWriter.EnablePassthrough | httpx/middleware/timeout.go:230-238 | drops the buffer and lets upstream write |
| Timeout.EveryRun | httpx/middleware/timeout.go:30-88 | buffer, connection and decision agree with the run's history after every interleaving |
| Timeout.ClientResponse | httpx/middleware/timeout.go:30-88 | the client gets the complete 503 and nothing of the handler exactly when the deadline won; otherwise exactly the handler's status, headers and bytes; after a panic no buffered output |
| Timeout.HandlerResponseIntact | httpx/middleware/timeout.go:192-206 | a handler that returned in time is heard byte for byte |
| Timeout.HandlerHeadFinal | httpx/middleware/timeout.go:192-206 | the body is the handler's then upstream's, and once the handler has written nothing changes its status or headers |
| Timeout.AskedHeader | httpx/middleware/timeout.go:122-129 | each header is as the handler last left it |
| Timeout.Phases | httpx/middleware/timeout.go:49-88 | how far handler and finisher are, read off the run |
| Timeout.ExpiryIsDecisive | httpx/middleware/timeout.go:60-83 | if the context ends before the handler does, the client gets the 503 however the watcher is scheduled |
| Timeout.FinisherNeverStuck | httpx/middleware/timeout.go:49-83 | once the handler is done no event of any party sets the finisher back and its own next step is possible |
| Timeout.FinisherEnds | httpx/middleware/timeout.go:49-83 | every run in which the handler is done can be finished in at most five more steps |
| Timeout.TimeoutBranchOpen | httpx/middleware/timeout.go:49-57 | the watcher's timeout branch is open exactly when the context has ended, for whichever cause, and the watcher has not left its select |
| Timeout.CancelledParentTimesOut | httpx/middleware/timeout.go:49-57 | a run in which only the parent is cancelled and the client gets the 503 |
| Loader.MemoryCache.constructor | cache/memory.go:30-34 | an empty cache |
| Loader.MemoryCache.Get | cache/memory.go:36-53 | a value is found exactly up to and including its expiry, and an expired entry is gone afterwards |
| Loader.MemoryCache.Set | cache/memory.go:55-63 | stores the value with its expiry, none for a ttl of zero or less |
| Loader.MemoryCache.Delete | cache/memory.go:96-101 | removes the entry and no other |
| Loader.EveryRun | cache/loader.go:97-131 | one flight per key and only values of finished loads of that key, after every run |
| Loader.OneFlightPerKey | cache/loader.go:97-131 | at most one call per key is on its way through a load, from taking the flight to landing the result, and values come from completed loads of the key asked for |
| Loader.WaiterSharesResult | cache/loader.go:97-131 | a call that joined a flight returns, if it returns, exactly what the flight's leader returned |
| Loader.NoReloadWhileFresh | cache/loader.go:97-131 | after a value is stored no load of its key starts until the key is invalidated or the ttl has passed since the load ended |
| Loader.OnlyExpiredPurged | cache/memory.go:36-53 | the purge of an expired copy never removes a value refreshed meanwhile |
| Loader.InvalidateExact | cache/loader.go:133-141 | a later Get can be served a value from before Invalidate if and only if a flight of the key carries one at that moment |
| Loader.InvalidateDuringLoad | cache/loader.go:133-141 | a run in which that happens |
| LoaderExpiry.SetThenGet | cache/memory.go:36-63 | on any cache a stored value is found if and only if it has no time to live or at most that has passed |
| LoaderExpiry.ResultsFromLoads | cache/loader.go:97-131 | a call whose load ended returns that load's value or error; any other a value a load of its key produced, or an error because one failed |
| LoaderExpiry.ExpiryExact | cache/loader.go:97-131 | a call can return a value stamped more than the time to live before it began if and only if a flight was about to store or return that value at that moment |
| LoaderExpiry.ExpiredReloads | cache/loader.go:97-131 | with no flight under way and only an expired value cached, every later success returns a value whose load had not begun |
| LoaderExpiry.SlowStoreServesExpired | cache/loader.go:97-131 | a run at whose end a flight is about to store an expired value, which a later call can get |
| Breaker.CircuitBreaker.constructor | httpx/breaker.go:41-49 | closed, with defaults for non-positive settings |
| Breaker.CircuitBreaker.Allow | httpx/breaker.go:53-73 | the decision and the state change of one admission request |
| Breaker.CircuitBreaker.Record | httpx/breaker.go:76-97 | the state change of one result, late ones included |
| Breaker.StateFromHistory | httpx/breaker.go:53-97 | after every history the breaker is closed exactly when the trailing failures are below the threshold, and half-open exactly when probed since; a trial is active exactly then |
| Breaker.AdmissionRule | httpx/breaker.go:53-73 | a request passes exactly when the trailing failures are below the threshold or it is the first a cooldown after the last failure |
| Breaker.TrialsAreSpaced | httpx/breaker.go:53-97 | trials wait a cooldown from the last failure, and two without a success between them are a failure and a cooldown apart |
| Breaker.HalfOpenRefuses | httpx/breaker.go:64-69 | no second request is admitted in any reachable half-open state |
| Breaker.LostTrialRefusesForever | httpx/client.go:187-190 | after a trial whose result is never recorded no later request is admitted at any time |
| Breaker.LostTrialExample | httpx/breaker.go:53-73 | a history with such a trial |
| Client.Attempt | httpx/client.go:196-216 | at most one attempt plus the retries; every one but the last failed retryably and was waited out; the last one's reply is returned and the reason for stopping is one of four |
| Client.ShouldRetry | httpx/client.go:297-307 | retries are on, the method is covered, and there was no response or one of the retryable statuses |
| Client.TriesOnce | httpx/client.go:196-216 | that description fits only one number of attempts |
| Client.Do | httpx/client.go:171-192 | an open breaker refuses before any attempt; otherwise, whatever other requests do to it meanwhile, the breaker is told of exactly one result, the last attempt's |
| Client.RequestInHistory | httpx/client.go:171-192 | a request adds one admission and one result to the breaker's history, with the calls of others between them |
| Client.Backoff | httpx/client.go:310-322 | the wait is positive, at most the delay and the cap, and at least half the delay |
| Client.BackoffExact | httpx/client.go:307-322 | the delay is the documented capped exponential if and only if the shifted base does not overflow into the valid range and the shift limit is reached only at the cap |
| Client.BackoffExactBases | httpx/client.go:307-322 | the promise holds at every retry if and only if the base is at least 14 ns and none of its 31 shifts wraps around to a small positive number |
| Client.BackoffInRange | httpx/client.go:307-322 | for every base from 14 ns to 2^34 ns it holds at every retry, and the delay never decreases |
| Client.BackoffCounterexamples | httpx/client.go:310-322 | the next base up, 2^34 + 1 ns, wraps around, and 1 ns jumps |
| Pagination.CheckedPageSize | gormx/table.go:968-976 | sizes outside 0 to 1000 are refused and 0 means the default |
| Pagination.Offset | gormx/pagination.go:69-82 | for a positive size -1 exactly when the product exceeds the largest int of any platform, otherwise the product |
| Pagination.ListByCursor | gormx/table.go:829-869 | in ranks: the rows beyond the token, ascending or descending as asked, and a token for the last exactly when more follow, all beyond it |
| Pagination.List | gormx/table.go:812-904 | which error or page each request gets; in offset mode each row has exactly the offset and its place as the number of rows ahead of it |
| Pagination.CursorAdvances | gormx/pagination.go:84-104 | moving the cursor to a match leaves exactly the matches after it |
| Pagination.WalkIncreases | gormx/table.go:812-869 | over a table changed arbitrarily between calls the returned cursors strictly increase |
| Pagination.WalkFinds | gormx/table.go:812-869 | a row present at every call of a finished walk is returned |
| Pagination.WalkExactlyOnce | gormx/table.go:812-869 | no cursor twice, and every row present throughout exactly once |
| Pagination.FixedTableWalk | gormx/table.go:812-869 | on a fixed table the walk is the whole table in order, in max(1, ceil(n/size)) calls |
| Pagination.OffsetAgreesWithCursor | gormx/table.go:885-904 | page k of offset mode is page k of the cursor walk, empty beyond the last, with the total count |
| PaginationTies.TiedWalkExact | gormx/table.go:812-869 | with cursor values that repeat, a walk over a fixed table returns every row if and only if cutting the table into pages never separates two rows with the same value |
| PaginationTies.EqualCursorSkipped | gormx/table.go:812-869 | three rows with one cursor value, of which a walk never returns the third |
| PaginationTies.PagesApart | gormx/table.go:812-869 | however the table changes and values repeat, what a later page returns comes strictly after everything on an earlier one |
| PaginationTies.TiedWalkFinds | gormx/table.go:812-869 | over a table changed arbitrarily between calls, a row present throughout is returned by a finished walk if and only if no page ended at its value without it |
| PaginationTies.AloneNotPassedOver | gormx/table.go:812-869 | which never happens to a row that is alone with its value |
| KeyFormat.Encode | aws/dynamo/tag.go:43-57 | the key is the literals and field texts in order, or an error exactly when some field of the format cannot be written |
| KeyFormat.Decode | aws/dynamo/tag.go:61-90 | for every key: it is accepted if and only if it begins with the format, each field as short as can be, and every text suits its field; fields already reached keep their new texts on an error |
| KeyFormat.ExtractExact | aws/dynamo/tag.go:61-90 | for every key, of the format's shape or not, the texts cut out are those of the longest beginning it has |
| KeyFormat.AcceptedKeys | aws/dynamo/tag.go:61-90 | a key is taken apart exactly when it begins with the whole format, and with a field after the last literal nothing is left over |
| KeyFormat.RoundTripExact | aws/dynamo/tag.go:43-100 | decoding an encoded key cuts out the fields' texts if and only if each next literal first occurs right after its field and adjacent followers are empty |
| KeyFormat.DecodeRestores | aws/dynamo/tag.go:61-90 | then every referenced field of any struct is restored and no other is touched |
| KeyFormat.OwnKeyReads | aws/dynamo/tag.go:61-90 | then no field's type stands in the way of reading the item's own key back |
| KeyFormat.RestoresExactly | aws/dynamo/tag.go:61-90 | for every format the last assignment wins: the struct is restored if and only if the last text the decoder cuts for each field is the field's own |
| KeyFormat.DecodeRestoresExact | aws/dynamo/tag.go:61-90 | for formats that name no field twice, if and only if the fields are decodable |
| KeyFormat.RepeatedFieldMasksError | aws/dynamo/tag.go:61-90 | a repeated field that is cut wrongly twice yet ends up right in every struct |
| KeyFormat.NoCollision | aws/dynamo/tag.go:43-57 | decodable items with the same key agree on every field of the format |
| KeyFormat.ApplyDerived | aws/dynamo/tag.go:330-343 | derived attributes are recomputed in struct order up to the first that cannot be printed, which is an error |
| KeyFormat.DerivedAgree | aws/dynamo/tag.go:330-343 | afterwards every derived attribute equals its pattern over the final fields |
| KeyFormat.ApplyTwiceIsOnce | aws/dynamo/tag.go:330-343 | applying again changes nothing |
| KeyFormat.PatternsAgreeExactly | aws/dynamo/tag.go:298-343 | for patterns not computed from themselves through others: no item is ever left with an attribute behind if and only if no pattern reads one recomputed after it |
| KeyFormat.MutualCopiesAgree | aws/dynamo/tag.go:298-343 | two attributes that copy each other agree on every item although the first reads a later one |
| KeyFormat.OnlyLaterReadersLag | aws/dynamo/tag.go:327-343 | on any one item, only patterns that read a later attribute can be left behind |
| KeyFormat.SecondPassExactly | aws/dynamo/tag.go:327-343 | a second pass changes nothing if and only if no attribute was left behind |
| KeyFormat.LaterAttributeLags | aws/dynamo/tag.go:327-343 | an attribute that copies a later one and is a pass behind |
| KeyPattern.StructFieldIndex | aws/dynamo/tag.go:386-393 | the first field of that name, or an error when there is none |
| KeyPattern.ParseKeyFormat | aws/dynamo/tag.go:102-135 | the loop over the remaining pattern computes the meaning a character-wise scanner gives it |
| KeyPattern.ParsedWellFormed | aws/dynamo/tag.go:102-135 | a pattern parses exactly when every placeholder closes and names a field; literals are then non-empty and never adjacent |
| KeyPattern.ParseErrors | aws/dynamo/tag.go:107-136 | a pattern that does not parse names its first placeholder that is not a field, and is unclosed only if all are fields |
| KeyPattern.ParsedRendersBack | aws/dynamo/tag.go:102-135 | the segments render back to the pattern with `{}` expanded |
| KeyPattern.RenderParsesBack | aws/dynamo/tag.go:102-135 | parsing inverts rendering on every well-formed format |
| KeyPattern.ParsedKeysRoundTrip | aws/dynamo/tag.go:43-135 | for every parsed pattern keys round-trip exactly when the fields are decodable |
| Modules.App.constructor | host/module.go:74-78 | nothing installed, no error |
| Modules.App.Fail | host/host.go:201-207 | the first error stays |
| Modules.App.WithModule | host/module.go:69-90 | installs a module not yet installed, its imports in order, and records a failing Register; terminates on cyclic imports |
| Modules.App.WithModules | host/module.go:92-99 | installs in order |
| Modules.InstalledIsLeastClosed | host/module.go:69-111 | each key registers at most once, and without an error the installed keys are the least set closed under imports |
| Modules.FirstErrorStops | host/module.go:92-99 | after an error later modules leave no trace |
| Modules.ErrorIsGenuine | host/module.go:84-89 | a recorded error names a key that was newly installed and whose Register failed |
| Modules.ErrorExactly | host/module.go:69-99 | an error is recorded if and only if a Register that began fails; it is that of the first to return one, and none begins after it; without an error no module asked for is passed over |
| Lifecycle.Container.constructor | host/service.go:49-62 | an empty container whose key log and map agree |
| Lifecycle.Container.StoreKey | host/service.go:49-62 | a known key keeps its place and takes the new value |
| Lifecycle.Container.ConfigPass | host/service.go:233-256 | configures exactly the services registered when it starts that are not yet configured |
| Lifecycle.Container.InitPass | host/service.go:258-288 | initialises exactly the configured ones not yet initialised |
| Lifecycle.Container.InitServices | host/service.go:211-299 | terminates though hooks register services; on success both stages visited exactly the registered keys in order, configuration first, that of the services registered at the start before any initialisation; the first failing hook ends it and leaves it not initialised; the container is what the log of visits replays to |
| Lifecycle.VisitSawFinal | host/service.go:211-299 | a visit saw the value its key ends up with if and only if no hook, from that visit on, put another in its place for good |
| Lifecycle.FinalValueVisited | host/service.go:211-299 | the value a key ends up with was configured and initialised if and only if no hook, from the key's configuration on, had put another in its place by its initialisation or by the end |
| Lifecycle.FinalContent | host/service.go:211-299 | the container holds exactly the services it held before and those the hooks provided, each with the value provided last |
| Lifecycle.ProvidedAgainUnvisited | host/service.go:211-299 | initialising a service that then provides itself anew leaves the new value in the container, seen by neither stage |
| Lifecycle.ProvidedBetweenStages | host/service.go:211-299 | initialising two services, one of which provides the other anew while it is configured, leaves a value that was initialised and never configured |
| Lifecycle.VisitedOnce | host/service.go:211-299 | so each registered key was configured once and initialised once |
| CloseOrder.Insert | host/service.go:441-445 | inserting keeps the order and every band |
| CloseOrder.StableSort | host/service.go:441-445 | ascending, with each band in the order it had |
| CloseOrder.CloseServices | host/service.go:417-468 | every service is visited in ascending order of the band it asks for, the last registered first; Close is called on exactly those that have one, and exactly the failing ones are collected |
| CloseOrder.LexicographicOrder | host/service.go:424-445 | every registered service once, by ascending band and descending registration |
| CloseOrder.OrderIsUnique | host/service.go:424-445 | no other order meets the promise on bands |
| CloseOrder.CloseOrderIsTheLexicographic | host/service.go:424-445 | a sequence holds every service in strict lexicographic order if and only if it is the one visited |
| Idempotency.IdempotencyKey | httpx/middleware/idempotency.go:215-226 | the hashed text of a list of parts |
| Idempotency.PreimageInjective | httpx/middleware/idempotency.go:215-226 | no two lists of parts share a hashed text |
| Idempotency.Middleware.constructor | httpx/middleware/idempotency.go:120-130 | an empty store |
| Idempotency.Middleware.Handle | httpx/middleware/idempotency.go:132-190 | the reply, whether the handler ran, and what is stored, for every request and store failure |
| Idempotency.ReplayedForever | httpx/middleware/idempotency.go:132-190 | once stored, the same body gets the identical response, another body a 422, and the handler never runs again while the entry is unexpired |
| Idempotency.StoredAtMostOnce | httpx/middleware/idempotency.go:132-190 | a second response is stored only after the first has expired |
| Idempotency.ReplayHasOrigin | httpx/middleware/idempotency.go:146-163 | every replay or refusal goes back to an earlier call of the same caller, method, URI and key whose handler ran |
| Idempotency.AnswerExact | httpx/middleware/idempotency.go:132-190 | exactly what every request of a sequence gets: the handler's answer, a refusal, or the response last kept for the same caller, method, URI and key |

## Left out

- Drivers, brokers, SQL generation, JSON, base64, SHA-256 and the AWS clients: they appear only through what they promise.
- Lock-free relays working side by side: documented as unsupported; that path is modelled with one relay.
- Payload, subject, headers and last error of outbox rows: nothing proved depends on them; undecodable headers count as a refused publish.
- Transactions.OutermostOwnsCommit: no transaction opened directly on the database inside commits a row, which `Transactions.OwnershipExact` shows to be exactly what is needed; a commit that reports an error has not happened.
- Transactions.EventIffDomainRow: the same two conditions.
- OutboxDrain.QueueDrains: one relay works while the others are idle; relays working side by side are bounded by `OutboxDrain.PassesBounded`.
- Limiter.Keyed: a channel is its element count, and slots are entries of a map from references, so that a slot can outlive its key's entry.
- Limiter.EveryRun: no fairness, and hence no claim that a waiter is eventually admitted.
- Timeout.TimeoutWriter: bytes count as written to the connection when handed over; `Status`, `Written` and `WriteString` are not modelled.
- Loader: a cache backend that fails, and loads that panic.
- Client.Do: encoding the request body and building the request, and an attempt that panics.
- Client.Backoff: method names are upper-cased in ASCII only, and the random draw is a parameter.
- Pagination.List: filters, scopes, joins and the count query's failure.
- Pagination.WalkExactlyOnce: cursor values are unique, which `PaginationTies.TiedWalkExact` shows to matter; `PaginationTies.PagesApart` and `PaginationTies.TiedWalkFinds` are the statements without that.
- Pagination.WalkFinds: the same assumption.
- KeyFormat.Decode: a rejected text leaves its field unchanged.
- KeyFormat.DerivedAgree: patterns read only underived or earlier fields, which `KeyFormat.PatternsAgreeExactly` shows to be exactly what is needed.
- KeyFormat.PatternsAgreeExactly: patterns computed from each other in a circle are left out; `KeyFormat.MutualCopiesAgree` shows why the statement is another one there.
- KeyFormat.ApplyTwiceIsOnce: the same assumption; `KeyFormat.SecondPassExactly` is the statement for all patterns.
- KeyFormat.DecodeRestoresExact: formats that name no field twice; `KeyFormat.RestoresExactly` covers all formats.
- KeyFormat.RestoresExactly: for fields named twice the condition is on the texts the decoder cuts, not on the format and the field texts alone.
- KeyPattern.RenderParsesBack: field names are distinct, non-empty and without a closing brace, as Go identifiers are.
- Modules.App.WithModule: an import graph through anonymous modules is a finite tree; in the code one that installs itself again does not end.
- Lifecycle.Container.InitServices: one goroutine; services registered concurrently by others are not modelled.
- CloseOrder.StableSort: Go's library sort is represented by an insertion sort with the same promise, and the in-place reversal by a function on values.
- Idempotency.ReplayedForever: sequential requests only, since concurrent duplicates are documented as best effort; the store answers reads and the clock does not go back.
- Signal handling, worker supervision, logging, tracing, metrics, configuration reading, CORS, JWT, secure headers, error mapping and money: wiring or short branches.
