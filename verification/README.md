# LeadKart runtime protocols, verified

A Dafny model of the shared runtime of LeadKart, a multi-tenant back end written in Go: its
read-through cache, its message pipeline and outbox, its keyset pagination, its idempotent
HTTP commands, and a few self-contained algorithms. Each protocol is a state machine over
its individual accesses, so that calls, crashes, redeliveries and clock ticks interleave in
every order; the main results hold for every run. Where the source updates things step by
step the model does too: classes with methods and loops, each proved equal to a function of
the old state, and theorems about that function.

| files | what they model |
|---|---|
| `CacheFence`, `CacheReads`, `CacheRuns` | concurrent Get, Invalidate, InvalidateMany and Set over L1, L2, the generation counter and the singleflight table |
| `CacheFacade` | the facade as an object, called sequentially, over lossy tiers |
| `Errors`, `Delivery`, `Effects`, `Pipeline`, `Inbox` | the wrapped errors, the delivery protocol, what it does to the application, the composed middleware stack, and the stack statement by statement |
| `Transactions`, `Outbox` | units of work with the rows they publish, and the outbox with its forwarder |
| `Keyset`, `KeysetListing` | keyset pages over a changing and over an unchanging table |
| `IdempotencyStore`, `Idempotency`, `ResponseRecorder`, `IdempotencyMiddleware` | the store of command results, the concurrent protocol, the recorder of responses, one request through the middleware |
| `Subordinates` | the recursive query over the reporting hierarchy |
| `RefreshTokens`, `RefreshTokenRows`, `RefreshRaces` | refresh-token families, their rows, and concurrent rotations and revocations of one family |
| `ImpersonationStore` | impersonation sessions with lazy eviction |
| `Money`, `MoneyText`, `Decimal` | printing and parsing amounts, and the grammar of rupee text |
| `FinancialYear`, `Calendar` | the Indian financial year |
| `Naturals`, `Options` | helpers |

`dafny verify dfyconfig.toml` checks all of it.

## Main results

- **The stale-write fence, exactly.** After a bump of the generation counter, the tiers stay
  free of older entries in every continuation if and only if they are free of them now and no
  call past its checks carries one (`CacheFence.FenceExact`). A Get that starts later can be
  served an older value if and only if that fails or a flight that is still in the table holds
  an older value, stored already or not (`CacheReads.ReadFenceExact`). The documented contract
  promises more; four lemmas of `CacheRuns` give the runs that break it: a fill past its check,
  a joined flight, a flight that is about to close, and an L1 refill.
- **Delivery.** Over all runs of redeliveries, duplicates, retries, lost replies and crashes
  nothing acked is lost (`Delivery.NoSilentLoss`), idempotent handlers take effect once each
  (`Effects.EffectivelyOnce`), every success of a message beyond the first is charged to a
  distinct delivery that overlapped, was struck or lost its insert (`Effects.RepeatsCharged`),
  and the handler cannot run again if and only if the row exists and no delivery is past its
  lookup (`Delivery.AtMostOnceExact`). The composed stack is a
  refinement of that protocol (`Pipeline.StackRefinesDelivery`), and so is its statement by
  statement form (`Inbox.Subscription.Handle`).
- **Outbox conservation** over all interleavings of units of work, forwarders and crashes
  (`Outbox.OutboxConservation`), on top of the balance of every committed transaction
  (`Transactions.UnitBalanced`).
- **Pagination.** Whatever happens to the table between pages, no row is listed twice and
  every row present throughout is listed (`Keyset.KeysetWalk`); over an unchanging table the
  pages are the listing (`KeysetListing.UnchangingWalk`), with the exact condition for the walk
  to end (`KeysetListing.EndsExact`).
- **Idempotent commands.** Replays are sound in every interleaving
  (`Idempotency.ReplaySound`), and while a record is live the handler cannot run again if and
  only if no earlier miss is still on its way (`Idempotency.AtMostOnceExact`). What is replayed
  is what the first client got, header for header, exactly under the condition of
  `IdempotencyMiddleware.RepeatVerbatimExact`.
- **Refresh tokens.** A token is accepted at most once in every life of a family
  (`RefreshTokens.AcceptedOnce`). Under concurrent rotations and revocations, each of two reads
  and a write, a consumed token is accepted again in no continuation if and only if no update
  under way holds it unconsumed or a revocation is final (`RefreshRaces.AcceptedOnceExact`);
  when a revocation lasts (`RefreshRaces.RevokedExact`) and when the tokens stay a chain with
  one current token (`RefreshRaces.ChainRunExact`) is decided as well. The write loop is
  accepted statement by statement exactly when every successor resolves
  (`RefreshTokenRows.WriteExact`).
- **Money.** Printing and parsing are inverse on all 64-bit amounts (`Money.RoundTrip`); for all
  text it is decided when a well-formed one is exact, refused or wrapped
  (`MoneyText.WellFormedExact`) and which malformed ones are accepted
  (`MoneyText.MalformedExact`).

## Where code and documentation differ

The model follows the code.

- `internal/common/cache/facade.go:24-31` promises that after Invalidate, InvalidateMany or
  Set no later Get observes the old value. `CacheRuns` shows four families of runs in which
  one does; `CacheReads.ReadFenceExact` is the exact condition.
- `internal/common/messaging/inbox.go:19-21` speaks of at most one run for each message and
  handler; the same comment later admits two. `Delivery.RowYetAttemptedAgain` gives a run and
  `Delivery.AtMostOnceExact` the exact condition.
- `internal/common/messaging/inbox.go:81` and `94-98` expect the broker to redeliver after a
  handler error or a failed row insert. In the stack of `router.go` PoisonQueue is outside of
  the inbox, so such a delivery, like one whose lookup failed, is dead-lettered and acked
  unless it was cancelled (`Pipeline.SalvageExact`, `Pipeline.FailedLookupDeadLetters`); a lost
  insert reply leaves both a row and a dead letter (`Pipeline.BothExact`,
  `Pipeline.LostInsertLeavesBoth`).
- `internal/common/messaging/router.go:164-166` wants a cancelled delivery redelivered. The
  filter sees only the error: a delivery cancelled while Retry backs off after another error is
  dead-lettered and acked (`Delivery.CancelledYetAcked`, `Pipeline.CancelledExact`).
- `internal/identity/domain/refreshtoken/family.go:217-218` says that the current token is not
  expired and belongs to a family that is not revoked. The code checks neither
  (`RefreshTokens.RevokedStillCurrent`, `RefreshTokens.ExpiredStillCurrent`);
  `RefreshTokens.CurrentExact` says exactly when the answer is the documented one.
- `internal/identity/domain/refreshtoken/family.go:66-71` promises exactly one current token. Two
  updates that read a family before either commits leave two, for every family with a usable
  token (`RefreshRaces.OverlapAcceptsTwice`); `RefreshRaces.OneCurrentExact` is the exact
  condition for one write and `RefreshRaces.ChainRunExact` for whole runs.
- `internal/identity/domain/refreshtoken/family.go:318-322` promises that nothing is accepted after
  a revocation. An update that has read the family before takes it back
  (`RefreshRaces.RevocationUndone`); `RefreshRaces.RevokedExact` is the exact condition.
- `internal/identity/app/command/refresh.go:88-97` relies on a consumed token being refused. Two
  overlapping rotations accept it twice (`RefreshRaces.OverlapAcceptsTwice`), and a logout that
  writes back a revoked copy brings it back although no update under way could accept it
  (`RefreshRaces.RevivedByLogout`); `RefreshRaces.AcceptedOnceExact` is the exact condition.
- `internal/common/money/money.go:136-139` says malformed input is refused. Exactly the texts of
  `MoneyText.MalformedExact` are accepted all the same, such as "1.-5", "1.23abc" and "---5"; and
  well-formed amounts whose rupees fit into 64 bits but whose paise do not are accepted with
  another value (`MoneyText.WellFormedExact`, `MoneyText.LargeAmountsMisread`).
- `internal/common/idempotency/middleware.go:88` and `174` say that the response is kept and
  replayed verbatim. The recorder keeps the last status written, the client got the first that
  settled the response (`ResponseRecorder.LateStatusKept`). The content type is read after the
  handler, so one that is set too late for the first client is replayed
  (`ResponseRecorder.LateTypeKept`). All other headers, such as Location and Set-Cookie, are
  dropped (`ResponseRecorder.OtherHeadersLost`). `ResponseRecorder.VerbatimExact` is the exact
  condition.
- `internal/common/indianfy/indianfy.go:118` says that the year made from an instant contains
  it. For the year 0 the text parses but contains nothing, and outside 0 to 9999 it does not
  parse (`FinancialYear.Tiling`).

## Assumptions

- singleflight takes a flight out of its table after the closure has returned, in one step with
  waking those who joined.
- Postgres transactions are atomic; a crash shows as a failing statement, and a commit or a
  write may take effect with its reply lost. Redis deletes and writes may fail either way.
- ristretto may drop an insert of a key that is absent; overwriting a key it holds takes effect.
- Watermill's Retry, with MaxRetries at least 1, re-runs a failing handler while it is allowed
  to, at most MaxRetries times and not after a cancellation; PoisonQueue publishes and swallows the error, or returns it
  when the publish failed; Recoverer turns a panic into an error. The broker may redeliver any
  published message at any time.
- net/http sends the first status that is not informational, takes a body without a status as 200,
  ignores later statuses, sends the headers as they are set at that moment, and sends no body
  with a status that does not allow one. The content type it guesses for a response without one
  is not told apart from none.
- Postgres reads see what is committed when the statement starts (READ COMMITTED), and the update
  of a family's row locks it until the transaction ends.
- Encoders are modelled by whether they succeed. The cursor codec is injective, and the
  empty string stands for the zero cursor.
- Clocks are parameters. UUIDs and hashes are values that the caller supplies; where the
  source relies on their being new, a lemma says so.

## Model

| member | source | states |
|---|---|---|
| CacheFence.RunInv | internal/common/cache/facade.go:156-330 | in every interleaving each cached or carried entry is what the source held at its birth or what a Set supplied, at most one leader fills a key, and a passed generation check means no bump in between |
| CacheFence.StaleNeverReturns | internal/common/cache/facade.go:196-230 | over every run, an entry older than a bump that is in a tier or about to be stored at the end was so at the beginning: after a bump old entries only disappear |
| CacheFence.FenceExact | internal/common/cache/facade.go:33-40 | after a bump the tiers stay free of older entries in all continuations if and only if they are now and no call past its checks carries one |
| CacheReads.ReadsRun | internal/common/cache/facade.go:156-237 | once the reads are fenced, no call that starts later returns an older value or waits for a leader that will, the step between the closure's return and the close of its flight included |
| CacheReads.ReadFenceExact | internal/common/cache/facade.go:24-31 | a Get still to start can return a value older than a bump if and only if the tiers are not fenced or a flight still in the table holds an older value, stored already or not |
| CacheReads.InvalidateFence | internal/common/cache/facade.go:262-273 | without L1, in every interleaving, whatever L2 holds after Invalidate returned nil was read or set after its bump, or was carried by a call that had passed its checks before the bump |
| CacheReads.LaterGetSeesTheWrite | internal/common/cache/facade.go:24-40 | under the exact condition a Get that starts later returns a value the source held, or a Set supplied, after the bump, and the current one if the source has not changed since |
| CacheRuns.StragglerBreaksContract | internal/common/cache/facade.go:211-230 | for all values, a run in which a fill past the generation check stores the old value after Invalidate returned nil |
| CacheRuns.JoinedFlightBreaksContract | internal/common/cache/facade.go:190-211 | a run in which a Get after Invalidate joins a flight that read the source before it, although the tiers are fenced |
| CacheRuns.ClosingFlightBreaksContract | internal/common/cache/facade.go:195-231 | a run in which a Get after Invalidate joins a flight whose value was stored and deleted again, because the flight is not yet out of the table |
| CacheRuns.RefillBreaksContract | internal/common/cache/facade.go:80-112 | with L1 enabled, from every state that has the key in L2, a run in which an L2 hit refills L1 after Invalidate |
| CacheFacade.Facade.Get | internal/common/cache/facade.go:156-237 | reply and both tiers after a sequential Get, under any failures and dropped inserts, are those of the lookup order L1, L2, source with the fence |
| CacheFacade.Facade.Invalidate | internal/common/cache/facade.go:262-273 | the key leaves both tiers and the counter moves; nil exactly when L2 acknowledged |
| CacheFacade.Facade.InvalidateMany | internal/common/cache/facade.go:285-305 | all keys leave both tiers with one bump; no keys, no change |
| CacheFacade.Facade.Set | internal/common/cache/facade.go:315-330 | the value reaches L2 and, only when L2 acknowledged, L1, with one bump |
| CacheFacade.RunCoherent | internal/common/cache/facade.go:156-330 | in every sequential run both tiers agree with the source on every key not changed since its last acknowledged mutation |
| CacheFacade.CacheIsTransparent | internal/common/cache/facade.go:156-330 | for such a key a Get returns exactly what the factory would return, and fails only where the factory would |
| CacheFacade.CacheServesUntilInvalidated | internal/common/cache/facade.go:219-237 | a filled entry is served again although the source has moved on |
| Errors.DepthIsIrrelevant | internal/common/messaging/errors.go:28-33 | an error is NonRetryable, or a cancellation, if and only if some error it wraps through any path is |
| Errors.MarkSurvivesWrapping | internal/common/messaging/errors.go:13-26 | the marker is found under any wrapping, and marking nil gives nil |
| Delivery.RunInv | internal/common/messaging/inbox.go:65-102 | every delivery of every run is backed by the world: rows by a success, an ack by a row or a dead letter |
| Delivery.NoSilentLoss | internal/common/messaging/router.go:199-240 | every acked delivery found or left a row and some attempt succeeded, or its message is a dead letter |
| Delivery.RowsNeedASuccess | internal/common/messaging/inbox.go:83-102 | a processed row exists only if an attempt of that handler on that message returned nil |
| Delivery.NeverAcked | internal/common/messaging/router.go:164-172 | a delivery whose error is a cancellation, that was nacked after a failed dead-letter publish, or that a crash struck is acked in no continuation |
| Delivery.GivenUpExact | internal/common/messaging/router.go:164-172 | a delivery that has given up on an error, cancelled or not, is acked in some continuation if and only if that error is no cancellation |
| Delivery.CancelledYetAcked | internal/common/messaging/router.go:164-166 | for every message a run in which a delivery is cancelled while Retry backs off after a plain error and is acked |
| Effects.FirstsStable | internal/common/messaging/inbox.go:23-42 | the order of first successes is only ever extended |
| Effects.EffectivelyOnce | internal/common/messaging/inbox.go:23-42 | for handlers that are no-ops on what has taken effect, the application, which each successful attempt changes in its step, is after any run in the state of each succeeded message applied once, in order of first success |
| Effects.RepeatsCharged | internal/common/messaging/inbox.go:34-42 | whatever the handlers do, a message succeeds at most once more than there are distinct deliveries that had found no row and were still without one when another delivery found none |
| Effects.UnchargedOnce | internal/common/messaging/inbox.go:34-42 | a message of which no successful delivery was without its row when another found none succeeds at most once |
| Delivery.AtMostOnceExact | internal/common/messaging/inbox.go:19-38 | no continuation attempts a message again if and only if its row exists and no delivery of it is past the lookup |
| Delivery.RowYetAttemptedAgain | internal/common/messaging/inbox.go:34-38 | for every message a run after which its row exists, its delivery is acked, and another delivery attempts it again |
| Pipeline.StackDrives | internal/common/messaging/router.go:224-240 | the composed stack ends in the same world as one delivery of the protocol, and returns nil exactly when that is acked |
| Pipeline.StackRefinesDelivery | internal/common/messaging/router.go:224-274 | from every state, handling a message with the composed stack is a run of the protocol |
| Pipeline.BoundedWork | internal/common/messaging/router.go:310-321 | one to MaxRetries + 1 attempts, none after a success or a NonRetryable error, giving up early only on cancellation, and one audit write with the flag of the last attempt |
| Pipeline.RowExact | internal/common/messaging/inbox.go:75-102 | the row is written exactly when the last attempt succeeded and the insert took effect |
| Pipeline.SalvageExact | internal/common/messaging/router.go:164-172 | every delivery is dead-lettered exactly when its lookup, its attempts or its insert failed, the error is no cancellation, and the publish took effect |
| Pipeline.BothExact | internal/common/messaging/inbox.go:88-99 | a salvaged delivery has a row as well exactly when its insert took effect and the reply was lost |
| Pipeline.FailedLookupDeadLetters | internal/common/messaging/inbox.go:70-74 | a failed lookup alone dead-letters and acks a message without an attempt |
| Pipeline.LostInsertLeavesBoth | internal/common/messaging/inbox.go:88-99 | replies under which a delivery ends with a success, a row and a dead letter |
| Pipeline.CancelledExact | internal/common/messaging/router.go:164-172 | a delivery cancelled while Retry backs off is acked exactly when its last error is no cancellation and the dead-letter publish is acknowledged |
| Pipeline.SwappedMarksThePoisoned | internal/common/messaging/router.go:212-222 | with Idempotency outside PoisonQueue every poisoned message gets a processed row |
| Inbox.Subscription.Attempt | internal/common/messaging/router.go:300-304 | one attempt is recorded and a panic becomes an error |
| Inbox.Subscription.AttemptWithRetries | internal/common/messaging/router.go:310-321 | the retry loop is the Retry middleware around the recovered handler |
| Inbox.Subscription.Audited | internal/common/messaging/middleware.go:123-161 | one audit entry after the last attempt |
| Inbox.Subscription.Receive | internal/common/messaging/inbox.go:65-102 | check, run, insert is the Idempotency middleware around the rest |
| Inbox.Subscription.Handle | internal/common/messaging/router.go:224-240 | the statements in order are the composed stack, so its theorems hold of them |
| Transactions.Transactor.WithinTx | internal/common/pg/transactor.go:64-95 | what is committed and what is returned after begin, bind, run, commit or rollback |
| Transactions.Transactor.RunBody | internal/common/pg/uow.go:37-65 | repository calls join the open transaction, nested units commit on their own, the first failure stops the closure |
| Transactions.Transactor.PersistIn | internal/identity/adapters/refresh_token_repository_pg.go:34-57 | a repository call inside a transaction writes its aggregate and then its events |
| Transactions.Transactor.PublishOutbox | internal/common/messaging/outbox.go:101-148 | one row for each event in order, stopping at the first failing insert |
| Transactions.PersistedBalanced | internal/common/messaging/outbox.go:101-148 | a successful repository call adds its write and exactly its rows |
| Transactions.BodyBalanced | internal/common/pg/uow.go:37-65 | a closure that returns nil leaves a balanced transaction with all its own writes, and nested units commit balanced ones |
| Transactions.UnitBalanced | internal/common/pg/transactor.go:64-95 | under any failures every committed transaction is balanced, the writes of a unit are committed together or not at all, and a nil result means committed |
| Outbox.RunInv | internal/common/messaging/outbox_forwarder.go:26-56 | the relay table, the forwarders' copies of rows and the messages on the topics agree with the committed rows in every run |
| Outbox.OutboxConservation | internal/common/messaging/outbox.go:50-65 | every message on a topic carries the event of a committed row that names this topic, each committed transaction has exactly the rows of its writes, and each row is still in the table or its event is on its topic |
| Outbox.CanDrain | internal/common/messaging/outbox_forwarder.go:26-56 | from every reachable state some continuation publishes all committed rows to their topics and empties the table |
| Keyset.ClampPageSize | internal/common/pagination/pagination.go:117-128 | a page size within bounds: kept if it was, the maximum if it was larger, the default for none |
| Keyset.CursorComesBack | internal/common/pagination/pagination.go:69-103 | a row's key sent out and back becomes the bound after that row in every repository, exactly unless a CRM listing meets the zero time |
| Keyset.FirstPageExact | internal/inventory/adapters/cursor.go:9-24 | without a cursor the first page considers every row exactly when all rows lie below the sentinel |
| Keyset.ListPage | internal/crm/adapters/crm_lead_repository_pg.go:216-239 | fails exactly when a row it keeps does not hydrate, and otherwise returns the page that BuildPage makes of the fetched rows |
| Keyset.ListWithBuildPage | internal/identity/adapters/permission_request_repository_pg.go:198-209 | fails when any fetched row, the extra one included, does not hydrate |
| Keyset.PageIsSound | internal/common/pagination/pagination.go:143-157 | a page holds rows after the bound in order, every other such row comes after its last row and is announced, and its token resumes after that row exactly when the row's key comes back as a cursor |
| Keyset.KeysetWalk | internal/identity/adapters/permission_request_repository_pg.go:166-209 | over a table that changes arbitrarily between pages, rows are listed in strict order and never twice, each was there when its page was read, and a finished walk lists every row that was there throughout |
| Keyset.UnbrokenWhenTimed | internal/crm/adapters/crm_lead_repository_pg.go:170-239 | the assumption of KeysetWalk holds of every walk outside of the CRM listings, and there of every walk over tables without a row of the zero time |
| KeysetListing.UnchangingWalk | internal/common/pagination/pagination.go:130-157 | over an unchanging table, if no page but the last ends with a row that does not come back, the walk takes exactly the pages needed, they put together are the listing, all but the last are full, and exactly the last announces no more |
| KeysetListing.WholeTableListed | internal/crm/adapters/reminder_repository_pg.go:129-186 | from the first request on, in both directions, a listing that ends is the whole table exactly when all rows lie below the sentinel |
| KeysetListing.EndsExact | internal/crm/adapters/crm_lead_repository_pg.go:170-239 | a listing of an unchanging table ends if and only if no page but the last ends with a row of the zero time in a CRM listing |
| KeysetListing.StartsOver | internal/crm/adapters/crm_lead_repository_pg.go:170-239 | otherwise it starts over at that page and has no end, however often the client asks |
| KeysetListing.ZeroTimeNeverEnds | internal/crm/adapters/crm_lead_repository_pg.go:170-239 | in either direction a table of two rows whose listing has no end |
| IdempotencyStore.InMemoryStore.Get | internal/common/idempotency/store.go:131-145 | absent exactly when there is no live record, a mismatch or a hit by body otherwise |
| IdempotencyStore.InMemoryStore.Put | internal/common/idempotency/store.go:148-156 | stores exactly the records that pass validation |
| IdempotencyStore.InMemoryStore.Purge | internal/common/idempotency/store.go:159-170 | keeps exactly the live records and counts the ones removed |
| IdempotencyStore.PurgeInvisibleExact | internal/common/idempotency/store.go:159-170 | a sweep changes no later lookup if and only if it drops no record that is still live |
| Idempotency.RunInv | internal/common/idempotency/middleware.go:161-213 | in every interleaving each record and each replay is backed by an execution, and the store agrees with the last write of each scope |
| Idempotency.ReplaySound | internal/common/idempotency/middleware.go:174-182 | a replayed response was produced by a successful run of the handler for the same caller, key and body, within its retention |
| Idempotency.LookupExact | internal/common/idempotency/middleware.go:161-182 | a lookup is decided by the last record stored under its scope: executed anew exactly when none is live, refused for another body, replayed otherwise |
| Idempotency.AtMostOnceExact | internal/common/idempotency/middleware.go:161-213 | while a record is live no continuation runs the handler for its scope if and only if no earlier miss is on its way to the handler or, with an older expiry, to the store |
| Idempotency.OverlappingRunTwice | internal/common/idempotency/store.go:188-191 | for every request two overlapping copies can both run the handler |
| Idempotency.NilKeyNeverKept | internal/common/idempotency/store.go:316-319 | a request under the nil command id runs the handler in every run |
| IdempotencyMiddleware.Middleware.Serve | internal/common/idempotency/middleware.go:117-215 | reply, whether the handler ran, and the store afterwards, for every header, caller and body and for everything the handler may do with its writer, tied to the concurrent protocol and the recorder |
| IdempotencyMiddleware.AloneIsARun | internal/common/idempotency/middleware.go:117-215 | an undisturbed request is a run of the concurrent protocol |
| IdempotencyMiddleware.RepeatExact | internal/common/idempotency/middleware.go:82-96 | over any store, a repetition of an executed request runs the handler again if and only if the first was no success, used the nil key, or has expired; otherwise it gets the first response |
| IdempotencyMiddleware.RepeatVerbatimExact | internal/common/idempotency/middleware.go:88-213 | over any store, a repetition in time of an executed request gets exactly what the first client got, status, headers and body, if and only if the handler's last status is the one that settled the response, the content type was not changed afterwards, and no other header was set before |
| ResponseRecorder.Handle | internal/common/idempotency/middleware.go:183-242 | after any calls of a handler the recorder holds what is stored and the wire what the client gets, headers included |
| ResponseRecorder.FaithfulExact | internal/common/idempotency/middleware.go:183-242 | stored and received status, body and content type are the same exactly when the last WriteHeader repeats the status that settled the response, that status allows a body or nothing was written, and the content type was not changed afterwards |
| ResponseRecorder.VerbatimExact | internal/common/idempotency/middleware.go:173-242 | what a replay sends is the whole response the first client got exactly when, of status and content type, that holds and no other header was set in time |
| ResponseRecorder.LateStatusKept | internal/common/idempotency/middleware.go:230-234 | for all statuses, a response settled by one status and followed by another is kept under the other |
| ResponseRecorder.LateTypeKept | internal/common/idempotency/middleware.go:185-202 | for all statuses, types and bodies, a content type set after the status is stored and replayed though the first client did not get it |
| ResponseRecorder.OtherHeadersLost | internal/common/idempotency/middleware.go:198-202 | for all names and values, a header other than the content type reaches the first client and is not replayed |
| IdempotencyMiddleware.SerialOnce | internal/common/idempotency/middleware.go:161-213 | served one after the other, until the record expires every request of the scope is replayed or refused, and the record is never overwritten |
| Subordinates.LevelIsChain | cmd/api/tasks_hierarchy_bridge.go:46-61 | round i of the query adds exactly the members i steps below the actor through active members |
| Subordinates.TerminatesExact | cmd/api/tasks_hierarchy_bridge.go:46-61 | the recursion ends if and only if the actor is not on a reporting cycle of active members |
| Subordinates.Join | cmd/api/tasks_hierarchy_bridge.go:54-58 | one round adds every active member as often as the round before lists the one it reports to |
| Subordinates.ListSubordinates | cmd/api/tasks_hierarchy_bridge.go:65-99 | lists the actor and everybody who reports up to the actor through active members, each exactly once |
| RefreshTokens.NewFamily | internal/identity/domain/refreshtoken/family.go:92-145 | refuses exactly the invalid input; a new family is a chain of one usable token |
| RefreshTokens.Family.FindToken | internal/identity/domain/refreshtoken/family.go:364-371 | the first token with the hash, or none |
| RefreshTokens.Family.RotateToken | internal/identity/domain/refreshtoken/family.go:254-316 | outcome and new state for every case, in the order of the checks |
| RefreshTokens.Family.RevokeFamily | internal/identity/domain/refreshtoken/family.go:327-345 | needs a reason, and changes nothing on a revoked family |
| RefreshTokens.Family.CurrentToken | internal/identity/domain/refreshtoken/family.go:219-227 | the search from the end finds the last token that is not consumed, and something exactly when there is one; in a chain it is the last |
| RefreshTokens.CurrentExact | internal/identity/domain/refreshtoken/family.go:217-227 | for every family and instant the current token is the documented one if and only if there is none, or the family is not revoked and that token has not expired |
| RefreshTokens.ChainCurrentExact | internal/identity/domain/refreshtoken/family.go:217-227 | in a chain: if and only if the family is not revoked and its last token has not expired |
| RefreshTokens.RevokedStillCurrent | internal/identity/domain/refreshtoken/family.go:217-227 | every new family that is revoked still has a current token |
| RefreshTokens.ExpiredStillCurrent | internal/identity/domain/refreshtoken/family.go:217-227 | every new family past its expiry still has a current token |
| RefreshTokens.RotationExact | internal/identity/domain/refreshtoken/family.go:289-304 | an accepted rotation consumes the last token and leaves a chain exactly when the clock does not show the zero time |
| RefreshTokens.AlwaysAChain | internal/identity/domain/refreshtoken/family.go:66-71 | in every life of a family its tokens form a chain with exactly one usable token, the last |
| RefreshTokens.AcceptedOnce | internal/identity/domain/refreshtoken/family.go:271-283 | a token once accepted is refused ever after, and presenting it again leaves the family revoked |
| RefreshTokens.RevokedForever | internal/identity/domain/refreshtoken/family.go:318-345 | after a revocation nothing is accepted and nothing changes |
| RefreshTokenRows.TokenTable.Upsert | internal/identity/adapters/db/refresh_tokens.sql.go:205-213 | a statement is refused or keeps hashes unique and references resolved, puts the row in with its new columns, and leaves every other row alone |
| RefreshTokenRows.TokenTable.UpsertFamily | internal/identity/adapters/refresh_token_repository_pg.go:218-256 | the reverse loop is the descending sequence of upserts |
| RefreshTokenRows.WriteExact | internal/identity/adapters/refresh_token_repository_pg.go:218-256 | for tokens linked in any way, the loop is accepted statement by statement if and only if every successor is in the table or among the tokens from it on; the rows are then exactly the tokens and no other row changes |
| RefreshTokenRows.WriteFamily | internal/identity/adapters/refresh_token_repository_pg.go:223-256 | in particular when every successor named is a later token |
| RefreshTokenRows.ReadBack | internal/identity/adapters/refresh_token_repository_pg.go:293-333 | any listing by generation of a stored family whose generations go up is its tokens in order |
| RefreshTokenRows.RotationPersists | internal/identity/adapters/refresh_token_repository_pg.go:61-87 | an accepted rotation with a new id and hash is written without an error and read back as it was |
| RefreshTokenRows.OldestFirstRefused | internal/identity/adapters/refresh_token_repository_pg.go:223-227 | in the other order the token just consumed is refused |
| RefreshRaces.RunInv | internal/identity/adapters/refresh_token_repository_pg.go:59-87 | in every interleaving of reads, rotations and revocations tokens keep their place and all but their mutable columns, ids and hashes stay distinct, and copies hold the first tokens of the family |
| RefreshRaces.OneTokenEach | internal/identity/app/command/refresh.go:128-146 | in every run the family gains exactly one token for each acceptance |
| RefreshRaces.AcceptedOnceExact | internal/identity/adapters/refresh_token_repository_pg.go:59-87 | a consumed token is accepted again in no continuation if and only if no update under way holds it unconsumed, or the family and every row read are revoked and no copy can accept a token |
| RefreshRaces.RevokedExact | internal/identity/adapters/refresh_token_repository_pg.go:201-256 | a revocation lasts in all continuations if and only if every row read is revoked and no copy can accept a token, or no token of the family or a copy is unconsumed |
| RefreshRaces.OneCurrentExact | internal/identity/domain/refreshtoken/family.go:66-71 | the write of a rotation or revocation to a family that is a chain leaves exactly one token unconsumed if and only if no token was accepted since the update has read the tokens |
| RefreshRaces.ChainRunExact | internal/identity/domain/refreshtoken/family.go:66-71 | over every run the tokens form a chain throughout if and only if no copy is written after another update has added a token |
| RefreshRaces.SerialLife | internal/identity/adapters/refresh_token_repository_pg.go:59-87 | a run in which every copy is the family when it is written leads the family through one of its sequential lives, and keeps a chain a chain |
| RefreshRaces.OverlapAcceptsTwice | internal/identity/app/command/refresh.go:128-146 | for every family with a usable token a run in which two overlapping updates accept it and leave two tokens unconsumed in an unrevoked family |
| RefreshRaces.RevocationUndone | internal/identity/domain/refreshtoken/family.go:318-322 | for every such family and every update that revokes it, a run in which a rotation takes the revocation back |
| RefreshRaces.RevivedByLogout | internal/identity/app/command/logout.go:61-63 | for every such family a run after which a token is consumed, no update under way can accept one, and the token is accepted again |
| ImpersonationStore.Store.Put | internal/identity/adapters/impersonation_inmemory_store.go:38-43 | the session is found under its id until it expires, and other sessions are found as before |
| ImpersonationStore.Store.Get | internal/identity/adapters/impersonation_inmemory_store.go:47-59 | finds exactly the live session and deletes an expired one |
| ImpersonationStore.Store.Delete | internal/identity/adapters/impersonation_inmemory_store.go:62-67 | the session is found at no instant, and other sessions are found as before |
| ImpersonationStore.Store.ListByOperator | internal/identity/adapters/impersonation_inmemory_store.go:71-86 | lists exactly the operator's live sessions, each once, and deletes all expired ones |
| ImpersonationStore.EvictionInvisible | internal/identity/adapters/impersonation_inmemory_store.go:45-86 | under a clock that does not go back, every answer of every run is that of a store that never evicts |
| ImpersonationStore.ClockBackReveals | internal/identity/adapters/impersonation_inmemory_store.go:54-57 | under a clock that goes back the eviction shows |
| Money.Group | internal/common/money/money.go:202-240 | the grouping loop computes the grouped text, for lakhs and for thousands |
| Money.GroupedPlain | internal/common/money/money.go:202-240 | grouping only inserts commas, and none in front |
| Money.GroupedPlaces | internal/common/money/money.go:199-240 | the commas are exactly three, then every two or three, digits from the right |
| Money.Format | internal/common/money/money.go:103-134 | symbol, sign, grouped digits and two decimals, with 64-bit negation and truncating division |
| Money.AmountReadsBack | internal/common/money/money.go:143-197 | a rupee text under either grouping reads back as its amount |
| Money.RoundTrip | internal/common/money/money.go:136-197 | parsing inverts formatting in rupees for every 64-bit amount, the smallest included |
| Money.ForeignRefused | internal/common/money/money.go:147-168 | amounts in dollars and euros are refused |
| MoneyText.WellFormedExact | internal/common/money/money.go:136-197 | every well-formed rupee text is refused exactly when its rupees exceed 64 bits, read as the amount it denotes exactly when that fits, and otherwise wrapped around |
| MoneyText.LargeAmountsMisread | internal/common/money/money.go:192 | well-formed amounts that do not fit although their rupees do are accepted with another value |
| MoneyText.GrammarExact | internal/common/money/money.go:136-162 | a text is well formed if and only if the parser takes it apart into at most one minus sign, digits with commas, and decimals |
| MoneyText.AcceptedExact | internal/common/money/money.go:164-197 | over all texts, accepted is exactly what has, once taken apart and without commas, a number within 64 bits and behind a point nothing, a digit, or a digit or sign and a digit |
| MoneyText.MalformedExact | internal/common/money/money.go:147-197 | over all texts, malformed and accepted are exactly the readable ones with two minus signs around the symbol, a further sign before the digits, or anything but digits behind the point |
| MoneyText.MinusBehindPoint | internal/common/money/money.go:182-188 | for every number of rupees, a minus sign behind the point is accepted |
| MoneyText.JunkBehindDecimals | internal/common/money/money.go:182-188 | for every amount, anything behind two decimals is accepted |
| MoneyText.ThreeMinusSigns | internal/common/money/money.go:149-161 | for every number of rupees, three minus signs are accepted and read as none |
| FinancialYear.TextExact | internal/common/indianfy/indianfy.go:130-137 | the text of a year matches the pattern exactly for 0 to 9999, and then parses and names it |
| FinancialYear.ParsedText | internal/common/indianfy/indianfy.go:103-116 | a text that parses is the text of its year |
| FinancialYear.BeganExact | internal/common/indianfy/indianfy.go:64-84 | an instant lies between the Aprils of exactly one year, the one computed from its calendar year and month |
| FinancialYear.Tiling | internal/common/indianfy/indianfy.go:86-137 | the text made from an instant parses exactly for the years 0 to 9999 and contains it exactly for 1 to 9999, and no other parsed text contains it |
| FinancialYear.NeighboursMeet | internal/common/indianfy/indianfy.go:74-84 | each year's end is the next year's start, exactly except after 9999 |
| FinancialYear.NeighboursUndo | internal/common/indianfy/indianfy.go:149-170 | previous undoes next exactly for 1 to 9998, next undoes previous exactly from 2 on |

## Left out

- Subordinates.ListSubordinates: requires that the actor is not on a reporting cycle, because on one the query does not end (TerminatesExact) and a method must.
- Keyset.KeysetWalk: assumes of a CRM listing that no page of the walk that announces another ends with a row of the zero time; UnbrokenWhenTimed gives a condition on the tables, EndsExact and StartsOver say what happens otherwise.
- Idempotency.LookupExact: sweeps are taken to use an instant the clock has reached; PurgeInvisibleExact says what a later instant would do.
- Several processes sharing L2: the generation fence is one facade object's.
- Wrap-around of the generation counter and of the 32-bit token generation.
- Closures that swallow the error of a repository call inside a unit of work and commit the rest.
- Effects.EffectivelyOnce: attempts take effect atomically, so a handler that fails half way is not modelled.
- Precision of timestamps: Go's nanoseconds and Postgres' microseconds are not told apart.
- The PostgreSQL store of command results, which keeps the same records under an upsert.
- The durability of the in-process broker, header parsing, tracing, tenant binding and the contents of audit entries.
- Base64 and JSON of cursors, codecs of cached values, hashing of bodies and tokens.
- Non-UTC instants given to the financial year; currencies outside the catalogue when parsing.
- Domain aggregates other than refresh-token families, HTTP handlers, validators, configuration and composition roots, which would only add easy members.
