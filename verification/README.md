# Subscription reconciler: a verified model

The service keeps one entitlement row per user and source (STORE, CARRIER, MARKETPLACE) and answers
"is this user premium now" from those rows. Three feeds write them: store webhooks that arrive late,
twice or out of order, polled carrier replies, and monthly marketplace revocations. A background
sweep expires rows whose time has run out, and every change of state is to leave an audit row.

The project proves what these parts guarantee together. It has three layers.

**Whole transactions.** `Tables` gives the tables as values and what each committed transaction does
to them; `Runs` lets any number of transactions, roll-backs and clock advances happen in any order.
`Deliveries` tells field by field what a webhook leaves behind. `StoreLog`, `AuditChain`, `Ledgers`,
`Sweeps`, `Query` and `Marketplace` prove properties of every reachable state. Runs start without store history; carrier and marketplace rows may be there already,
since no step creates an active one, provided a stored expiry is later than the row's event time.

**Single statements.** `Protocol` breaks the transactions into statements that interleave freely:
unique event key, advisory lock of the user, read, guarded upsert evaluated on the latest committed
row, commit; sweeps and claims take row locks, pass over locked rows and never wait.
`Interleavings` shows in which sense the rows are serializable, and the one window in which the audit
log is not. `Histories` carries the results about the store log, notifications and claims over to every
interleaving, with transactions overlapping and their clocks in any order.

**Loops, class and arithmetic.** `Postgres.Client` is the database client as a class whose methods
change the tables statement by statement. Any statement may fail: `patience` is how many more go
through. Each method is proved to have the effect of its specification in `Tables`, or none, and to
succeed when enough statements do.
`Selections` says which rows a limited, ordered query takes. `Workers` holds the drain loops and the two loops of the application services, `Query` the canonical
resolution loop, and `Calendar` Go's one-month arithmetic.

## What turned out to be conditional

*Order of delivery.* README.md:112 and README.md:116 of the repository say that store events are ordered by event
time whatever the time of arrival, and that the sweep preserves this for delayed renewals. The sweep
stamps a row with the expiry it swept, so a renewal stamped at or before that expiry but delivered
after the sweep is recorded and then ignored, and until a newer event comes the user lacks the access
it paid for.
`StoreLog.RenewalAfterSweepIsLost` builds such a run from any two grants like that.
`StoreLog.DeliveryKeepsAgreement` gives the exact condition per delivery, one that can be checked
beforehand (the event is newer than every recorded one but not newer than the row, and still grants),
`StoreLog.AgreeExactlyUnlessMissed` says the same of whole runs, and `StoreLog.CacheAgreesWithLog`
gives the exact condition on a state. Where no delivery is missed, order does not matter; without sweeps
none ever is.

*The audit chain.* README.md:341 promises a monotonic history. It holds for whole transactions
(`AuditChain.AuditReplaysToRows`). At the level of statements the user lock does not stop the sweep:
if one commits between a writer's read and its upsert, the audit row speaks of a state that is gone.
`Interleavings.ChainedExactlyUnlessStale` shows that this window is the only one, and
`Interleavings.SweepCanOvertakeWriter` that it exists. The rows themselves are serializable in every
interleaving.

*The two sweeps.* The fallback loop of the expiration service and the transactional sweep agree if
and only if every swept row's event is older, to the millisecond, than its expiry
(`Sweeps.SweepsAgree`); all reachable states satisfy this.

*Revocation.* A revocation is recorded and counted, and the row is left active, when that row's event
time is at or after the time of the call (`Marketplace.RevocationTakesAccess`);
`Marketplace.RevocationCanLeaveAccess` gives such a row.

## Model

| member | source | states |
|---|---|---|
| `StoreLog.NewestIsFirstLatest` | internal/infrastructure/postgres/client.go:132-136 | the event that the guards leave in charge of a user is the first recorded among the latest by event time |
| `StoreLog.ReachableIsCached` | internal/application/store_webhook.go:43-76 | every run keeps the STORE row equal to what the newest recorded event wrote, or expired by a sweep at a later or equal time |
| `StoreLog.CacheAgreesWithLog` | internal/application/store_webhook.go:43-76 | in every reachable state row and log agree about a user from now on if and only if no sweep has overtaken an event that still grants |
| `StoreLog.DeliveryKeepsAgreement` | internal/infrastructure/postgres/client.go:132-153 | a delivery keeps row and log in agreement if and only if it is not one that is newest in the log, not newer than the row, and still granting |
| `StoreLog.AgreementThroughout` | README.md:112-113 | a run that misses no delivery has row and log in agreement for everyone, at every later time |
| `StoreLog.AgreeExactlyUnlessMissed` | README.md:112-116 | row and log agree about everyone after every prefix of a run if and only if the run misses no delivery |
| `StoreLog.DeliveryOrderDoesNotMatter` | README.md:112-113 | two runs that deliver the same events (of distinct times per user) in any order, with duplicates, failures, sweeps and any other steps, and miss none, answer alike afterwards |
| `StoreLog.NothingMissedWithoutSweeps` | internal/application/store_webhook.go:103-141 | without sweeps no delivery is ever missed, so order never matters |
| `StoreLog.ArrivalShowsInRow` | internal/application/store_webhook.go:113-119 | a grant arriving in time is stored active and one arriving at its expiry or later inactive, but both answer alike from then on |
| `StoreLog.RenewalAfterSweepIsLost` | internal/infrastructure/postgres/client.go:250-256 | for any grant, and any renewal stamped up to its expiry that still runs afterwards, there is a run in which the renewal is recorded and the row denies the access it grants |
| `StoreLog.TimestampAccounting` | internal/infrastructure/postgres/client.go:250-256 | a STORE row exists exactly for users with recorded events; its last_event_time is the greatest of recorded event times and swept expiries, and a stored expiry is later |
| `StoreLog.PremiumAnswersAreSound` | internal/application/store_webhook.go:103-119 | whenever a STORE row grants at some time, the user's latest recorded event is a grant whose month runs past that time, with the row's expiry and reason |
| `StoreLog.RecordedIsDelivered` | internal/infrastructure/postgres/gen/store_events.sql.go:72-76 | when an id stands for one event, exactly the delivered events are recorded, however often and in whatever order they came |
| `Deliveries.FirstFailedCheck` | internal/domain/store_webhook.go:34-59 | a payload is refused for the first of five reasons that applies, and otherwise accepted |
| `Deliveries.WebhookLands` | internal/application/store_webhook.go:43-76 | a duplicate changes nothing; a new event is recorded and marked, and, if newer than the row, leaves the row, audit row and notification its type, time and reading clock call for, and nothing else |
| `Deliveries.LateGrantGivesNothing` | internal/application/store_webhook.go:113-119 | a grant that had run out when read is stored inactive as expired with its expiry, notifies nobody and audits no access |
| `Deliveries.AccessIsGrantedInTime` | internal/application/store_webhook.go:107-119 | in every run a webhook's audit row shows access if and only if it was a grant whose expiry was still to come when it was read |
| `Deliveries.EveryNotificationIsWarranted` | internal/application/store_webhook.go:64-70 | in every run each notification stands 24 hours before the expiry of an audited change to an active STORE grant of its user |
| `AuditChain.AuditReplaysToRows` | internal/infrastructure/postgres/client.go:155-175 | the audit rows of a user and source link up from the seeded row, none records a change of nothing, and the last ends at the current row |
| `AuditChain.AuditTimesIncrease` | README.md:341 | the event times and swept expiries behind a user's STORE audit rows strictly increase |
| `Ledgers.EventsTakeEffectOnce` | README.md:109-111 | in every run, roll-backs included, event ids are unique, markers stand exactly for the events that went through, and no event causes two audit rows |
| `Ledgers.EveryChangeIsExplained` | README.md:114 | every audit row names its cause: a recorded valid event of that user with the matching expiry and reason, that user's revocation, a carrier poll, or the sweep |
| `Ledgers.EveryGrantIsAnnouncedOnce` | internal/application/store_webhook.go:64-70 | users have at most one notification a UTC day, none is sent early, and every change to an active STORE grant has one on the day before its expiry's day |
| `Ledgers.ClaimsAreDisjoint` | internal/infrastructure/postgres/gen/notifications.sql.go:52-67 | in runs of whole transactions no notification is claimed twice, and the claimed ones are exactly those marked sent |
| `Ledgers.CarrierClaimsAreApart` | internal/infrastructure/postgres/gen/entitlements.sql.go:13-32 | in runs of whole transactions any two claims of one user's carrier row are at least the five-minute staleness window apart |
| `Sweeps.SweepRows` | internal/infrastructure/postgres/client.go:245-279 | a batch changes exactly the listed rows, each to its expired form stamped with its own expiry |
| `Sweeps.SweepAudits` | internal/infrastructure/postgres/client.go:264-276 | a batch audits each listed row once, in order, against the row as it was |
| `Sweeps.SweepsAgree` | internal/application/expiration.go:41-76 | the fallback loop and the transactional batch give the same rows, audit rows and count if and only if every row's event is older than its expiry |
| `Sweeps.StaleRowsDiffer` | internal/application/expiration.go:58-73 | otherwise the fallback leaves such a row active, while the transaction expires it and moves its last_event_time back or leaves it level |
| `Sweeps.ExpiriesStayAfterEvents` | internal/infrastructure/postgres/client.go:250-256 | in every run, stored expiries of all sources stay later than the events behind them |
| `Sweeps.SweepsAgreeWhenReached` | internal/application/expiration.go:28-31 | so the two sweeps agree on any batch in any reachable state |
| `Query.GetCanonicalEntitlement` | internal/application/entitlement_query.go:47-87 | the answer is active if and only if some row is active and has no expiry or a later one, and is then such a row's with no granting source above it, first among equals; else NONE with the time of the latest change |
| `Query.CanonicalIsUnique` | internal/application/entitlement_query.go:47-87 | that description leaves only one answer |
| `Query.AnswerFollowsRows` | README.md:103-105 | for the rows of a user the answer is active exactly when some row gives access at that time, with that row's expiry, reason and time of change, the store's before the carrier's before the marketplace's |
| `Query.NoExpiryMeansAlways` | internal/domain/entitlement.go:18-24 | a user with an active row that has no expiry is premium at every time |
| `Query.SweepIsInvisible` | README.md:127 | no reader after a sweep can tell that it ran, except by the time of change in the answer NONE |
| `Query.StoreAnswerHasGrant` | internal/application/entitlement_query.go:64-72 | in every reachable state an answer "premium through the store" is backed by a recorded grant that is the user's latest event and still runs |
| `Marketplace.MonthKeyInjective` | internal/application/marketplace_revoke.go:47-48 | two keys are equal exactly for the same user in the same month, for four-digit years and user ids of any characters |
| `Marketplace.KeysDifferByUser` | internal/application/marketplace_revoke.go:47-48 | within one call different users have different keys, in any year |
| `Marketplace.MonthKeyReads` | internal/application/marketplace_revoke.go:47-48 | the key reads marketplace_revoke_, the user, an underscore, the year in four digits, a dash and the month in two |
| `Marketplace.CountIsDistinctUsers` | internal/application/marketplace_revoke.go:83-91 | the count of a call is the number of distinct listed users not yet revoked that month |
| `Marketplace.RevokeAllTouches` | README.md:103 | a call records exactly the listed users' keys, changes no row but MARKETPLACE rows of listed users, and no events or notifications |
| `Marketplace.RetryDoesTheRest` | README.md:111 | a call that stopped after some users, repeated within the month, does exactly the rest |
| `Marketplace.RetryAtSameClockIsOneCall` | README.md:111 | stopping and repeating at the same clock equals one clean call |
| `Marketplace.RevocationTakesAccess` | internal/application/marketplace_revoke.go:68-70 | a first revocation leaves the row active if and only if it was active and its event is at or after the call |
| `Marketplace.RevocationCanLeaveAccess` | internal/application/marketplace_revoke.go:68-75 | for any user and time there is a seeded row whose access survives a revocation that is recorded and marked processed |
| `Marketplace.PollTakesAccess` | internal/application/carrier_polling.go:57-82 | a poll changes only the user's carrier row, only on a reported inactive plan, and then leaves it active if and only if its event is at or after the reply |
| `Marketplace.BulkCallRevokes` | internal/application/marketplace_revoke.go:40-94 | after a call every newly revoked user whose row was older has no marketplace access, wherever in the list and however often listed |
| `Marketplace.BulkCallRows` | internal/application/marketplace_revoke.go:68-70 | after a call the MARKETPLACE rows of newly revoked users that were older or missing read as revoked as of the call, and every other row is as before |
| `Marketplace.RevokedStaysRevoked` | README.md:103 | carrier and marketplace access, once gone, never returns in any run |
| `Protocol.SoundThroughout` | internal/infrastructure/postgres/client.go:103-176 | in every interleaving locks stay exclusive, a row read under the user lock stays as read unless a sweep expires it, and stored expiries stay later than their events |
| `Protocol.EffectIsAlone` | internal/infrastructure/postgres/client.go:138-175 | what a commit does to the rows is what the transaction does when run on its own; the audit row too unless it is stale |
| `Interleavings.RowsAreSerial` | internal/infrastructure/postgres/client.go:103-176 | in every interleaving of writers, sweeps, claims and roll-backs the committed rows are those of the committed transactions run one at a time |
| `Interleavings.SerializableUnlessStale` | internal/infrastructure/postgres/client.go:155-175 | so is the audit log, unless some commit is stale |
| `Interleavings.WritersAreSerializable` | README.md:114 | with no sweep running, what a writer read is still committed when it writes, and rows and audit log are serial |
| `Interleavings.EventTimesNeverGoBack` | internal/infrastructure/postgres/gen/entitlements.sql.go:320-330 | between any two points of any interleaving no last_event_time goes back, and it goes forward wherever a row's state changed |
| `Interleavings.OvertakenWritesNothing` | internal/infrastructure/postgres/client.go:132-153 | a writer's commit changes rows or audit log if and only if its event is newer than the row committed by then, whatever it read before |
| `Interleavings.ChainBreaksExactlyWhenStale` | internal/infrastructure/postgres/client.go:155-175 | a commit keeps the audit chain of its row if and only if no sweep came between its read and its upsert |
| `Interleavings.StaleMeansSwept` | internal/infrastructure/postgres/client.go:138-139 | a stale commit had read an active expiring row that a sweep then expired, and nothing else |
| `Interleavings.ChainedUnlessStale` | README.md:341 | an interleaving without a stale commit has an audit log that replays to the rows |
| `Interleavings.ChainedExactlyUnlessStale` | README.md:341 | the audit log replays to the rows after every prefix of an interleaving if and only if no commit in it is stale |
| `Interleavings.SweepCanOvertakeWriter` | internal/infrastructure/postgres/gen/entitlements.sql.go:213-222 | from any quiet state with a due row and a newer write, there is an interleaving after which the audit log no longer replays |
| `Interleavings.EventsCommitOnce` | README.md:109 | however deliveries of one event interleave, at most one of them commits; the store's ids and the marketplace's are separate |
| `Histories.CacheAgreesInEveryInterleaving` | internal/application/store_webhook.go:43-76 | in every interleaving, stale commits included, committed row and committed events agree about a user from now on if and only if no sweep has overtaken an event that still grants |
| `Histories.PremiumIsSoundInEveryInterleaving` | internal/application/store_webhook.go:103-119 | in every interleaving a committed STORE row that grants at some time is backed by the user's latest committed event, a grant that runs past that time |
| `Histories.LogIsRecordedThroughout` | internal/infrastructure/postgres/gen/store_events.sql.go:72-76 | in every interleaving the events of the committed webhooks have different ids, and these are the recorded ones |
| `Histories.GrantsAreAnnouncedInEveryInterleaving` | internal/application/store_webhook.go:64-70 | in every interleaving users have at most one notification a UTC day, none is sent early, and every audited change to an active STORE grant has one |
| `Histories.NoticesAreWarrantedInEveryInterleaving` | internal/application/store_webhook.go:64-70 | in every interleaving each notification stands 24 hours before the expiry of an audited change to an active STORE grant |
| `Histories.SendsAreDisjointInEveryInterleaving` | internal/infrastructure/postgres/client.go:485-513 | however the claims of any number of workers overlap, no notification is in two committed claims, and the claimed ones are exactly those marked sent |
| `Histories.ClaimsAreApartInEveryInterleaving` | internal/infrastructure/postgres/client.go:287-314 | however carrier claims overlap and whatever their clocks, committed claims of one user's row are stamped at least five minutes apart, in commit order |
| `Interleavings.NoCircularWait` | internal/infrastructure/postgres/client.go:104-109 | no transactions ever wait for each other in a circle |
| `Interleavings.SomeoneCanMove` | README.md:115 | as long as anything is in flight some transaction can run its next statement or commit |
| `Selections.FirstOf` | internal/infrastructure/postgres/gen/entitlements.sql.go:20-20 | the candidate that no other precedes, nulls first |
| `Selections.SelectInOrder` | internal/infrastructure/postgres/gen/entitlements.sql.go:213-222 | ORDER BY with LIMIT: as many distinct candidates as allowed, in order, none left out before one taken |
| `Selections.SelectedExpired` | internal/infrastructure/postgres/gen/entitlements.sql.go:213-222 | the sweep's batch holds active rows whose expiry has come, by ascending expiry; none is left out for a later one, and none at all unless the batch is full |
| `Selections.SelectedUnpolled` | internal/infrastructure/postgres/gen/entitlements.sql.go:13-23 | a carrier claim holds active rows polled by the given time or never, never first and then the longest ago, none left out for a later one, none at all unless full |
| `Selections.SelectedUnsent` | internal/infrastructure/postgres/gen/notifications.sql.go:52-60 | a notification claim holds unsent ones whose time has come, the earliest first, none left out for a later one, none at all unless full |
| `Selections.BatchesAreSteps` | internal/infrastructure/postgres/gen/entitlements.sql.go:213-222 | whatever batch a sweep or claim selects is a step that the runs allow |
| `Postgres.UpsertIsGuarded` | internal/infrastructure/postgres/client.go:132-175 | an upsert that is not newer changes nothing; a newer one leaves exactly the given values, keeps carrier_polled_at, and audits old and new state if and only if active flag or expiry changed |
| `Postgres.SweepExpires` | internal/infrastructure/postgres/client.go:245-279 | a batch turns exactly its rows inactive, without expiry, for the reason EXPIRATION, stamped with their own expiry, and adds one audit row each in order |
| `Postgres.Client.UpsertRow` | internal/infrastructure/postgres/gen/entitlements.sql.go:320-330 | inserts, or updates only when strictly newer; leaves carrier_polled_at; reports the rows affected |
| `Postgres.Client.ExpireRow` | internal/infrastructure/postgres/gen/entitlements.sql.go:71-83 | expires the row only if it is still due, and reports the rows affected |
| `Postgres.Client.UpsertInTransaction` | internal/infrastructure/postgres/client.go:103-176 | has the effect of the guarded upsert with its audit row, and reports a change exactly when active flag or expiry changed |
| `Postgres.Client.UpsertEntitlement` | internal/infrastructure/postgres/client.go:82-101 | the guarded write, told field by field, or, after a failed statement or commit, nothing |
| `Postgres.Client.InsertStoreEvent` | internal/infrastructure/postgres/gen/store_events.sql.go:72-76 | records an event exactly when its id is new |
| `Postgres.Client.ScheduleNotification` | internal/infrastructure/postgres/gen/notifications.sql.go:136-140 | adds a notification unless the user has one that UTC day |
| `Postgres.Client.MarkEventProcessed` | internal/infrastructure/postgres/gen/processed_events.sql.go:49-53 | the marker is there afterwards, and no other is added |
| `Postgres.Client.StoreWebhookWrites` | internal/application/store_webhook.go:46-76 | the writes in order amount to the webhook's whole effect, whatever clock the transition was computed at |
| `Postgres.Client.ProcessStoreWebhook` | internal/application/store_webhook.go:32-98 | whole effect or none, the effect told field by field; refusal exactly for the first failed check; a failure at any statement or the commit changes nothing, so a retry at the same clock is one clean attempt; duplicates are reported as such |
| `Postgres.Client.RevocationWrites` | internal/application/marketplace_revoke.go:56-77 | the writes for one user amount to the revocation's whole effect, or nothing for a key already recorded |
| `Postgres.Client.RevokeInTransaction` | internal/infrastructure/postgres/client.go:388-410 | the same or nothing |
| `Postgres.Client.RevokeMarketplaceAccess` | internal/application/marketplace_revoke.go:28-95 | a failure leaves exactly the users before it committed; a full call reports the number of distinct users not yet revoked that month, and seven statements a user are always enough for one; empty and oversized lists are refused |
| `Postgres.Client.ExpireSelected` | internal/infrastructure/postgres/client.go:245-279 | expires and audits one selected row |
| `Postgres.Client.GetExpiredEntitlementsForReconciliation` | internal/infrastructure/postgres/client.go:206-221 | lists the longest-expired due rows, up to the limit |
| `Postgres.Client.ReconcileExpiredEntitlements` | internal/infrastructure/postgres/client.go:226-285 | one batch of the longest-expired due rows is swept whole and counted, or nothing changes; it succeeds exactly when two statements a row and two more go through |
| `Postgres.Client.ClaimDueCarrierEntitlements` | internal/infrastructure/postgres/client.go:287-314 | returns active carrier rows never polled or polled longest ago, all of them if there is room, and stamps just those, or nothing changes |
| `Postgres.Client.ClaimDueNotifications` | internal/infrastructure/postgres/client.go:485-513 | returns the earliest unsent notifications whose time has come, all of them if there is room, and marks just those sent, or nothing changes |
| `Workers.ReconcileOnce` | internal/infrastructure/worker/expiration.go:61-82 | with no one else writing, terminates; goes through if and only if enough batches are permitted and enough statements succeed, and has then expired and audited exactly the active rows whose expiry had come, each once, and reports how many; otherwise stops after whole batches |
| `Workers.SendOnce` | internal/infrastructure/worker/notifications.go:55-77 | the same for notifications, with its own exact condition: exactly the unsent ones whose time had come are marked sent now, and nothing else changes |
| `Workers.ApplyReply` | internal/application/carrier_polling.go:57-82 | a reply leads to a write only when it differs from the claimed row's status |
| `Workers.PollCarriersForUsers` | internal/application/carrier_polling.go:37-88 | claims the due users polled longest ago and applies the replies in that order; a failure or cancellation leaves exactly the users before it applied; two statements and five a user are always enough |
| `Workers.PollOnce` | internal/infrastructure/worker/carrier_polling.go:57-79 | when enough batches and users are permitted and enough statements succeed, every active carrier row never polled, or last polled five minutes ago or more, is stamped and, if reported inactive, revoked, and no other row changes; cut short, it has done whole batches and a prefix of one more |
| `Workers.PolledRows` | internal/application/carrier_polling.go:46-85 | the effect of a whole drain on each single row |
| `Workers.PollProgress` | internal/infrastructure/worker/carrier_polling.go:61-78 | a batch takes exactly its users off the due ones; a short one leaves nobody due |
| `Workers.TwoBatches` | internal/infrastructure/worker/carrier_polling.go:61-78 | claiming and polling two batches of different users is claiming and polling them as one |
| `Workers.BatchProgress` | internal/infrastructure/worker/expiration.go:65-82 | a short batch leaves nothing due and completes the drain, a full one leaves as many fewer as it swept |
| `Workers.ClaimProgress` | internal/infrastructure/worker/notifications.go:59-76 | the same for notification claims |
| `Workers.ReconcileByUpserts` | internal/application/expiration.go:41-76 | the fallback loop over upserts has the effect and the count of the fallback batch; a failure keeps what was done before it; five statements a row and one more are always enough |
| `Calendar.CivilRoundTrip` | internal/application/store_webhook.go:109-111 | day numbers and calendar dates convert back and forth without loss |
| `Calendar.AddOneMonthIsMonthLength` | internal/application/store_webhook.go:109-111 | adding one month adds exactly the days of the month it starts in, also on the 31st and across new year |
| `Calendar.GrantExpiry` | internal/application/store_webhook.go:109-111 | a grant ends 28 to 31 days after its event, and later in milliseconds |
| `Calendar.UnixMilliRoundsDown` | internal/infrastructure/postgres/client.go:250-255 | milliseconds are whole ones already past |
| `Calendar.SweptGrantKeepsItsExpiry` | internal/infrastructure/postgres/client.go:250-255 | the last_event_time a sweep stores for a grant is the expiry itself, without loss |
| `Calendar.LaterGrantsEndAtMostThreeDaysEarlier` | internal/application/store_webhook.go:109-111 | a later grant may end earlier, but by strictly less than three days, and not if its month is at least as long |
| `Calendar.ThreeDayBoundIsTight` | internal/application/store_webhook.go:109-111 | one millisecond less than three days is attained, on 31 January and 1 February 2023 |

## Left out

- HTTP handlers, JSON, the router, configuration, logging and the `cmd/` entry points: input and output only.
- The carrier client and the mock carrier: a reply is an arbitrary value among active, inactive, error and unknown.
- Tickers, goroutines and contexts: a drain loop may be cancelled after any number of batches or users; a cancelled database call is a failed statement.
- Timeline pagination, and the `created_at` columns: the pages order by a column with ties and copy fields.
- Row scanning and null conversions, indexes kept only for speed, and the first migration's check that an expiry is later than the update time, which later migrations drop.
- Local time zones and daylight saving: `AddDate` and `Format` are taken in UTC.
- Skew between the application's clock and the database's: there is one clock that never goes back, and a reading by the application is no later than the database's `NOW()`.
- Sub-microsecond parts of instants, which PostgreSQL does not keep and `sameExpiration` ignores.
- Overflow of the int32 counters and int64 times.
- Collisions of advisory-lock hashes: they only make more writers wait.
- Queries nothing calls (`GetLastEventTimeFromStore`, `GetEntitlementsExpiringWithin24h`, `GetDueNotifications`, `MarkNotificationSent`).
- Selections.SelectInOrder: leaves ties in any order, where the claims break them by user or notification id; every result of the real queries is one of those allowed. The claims return rows in this order, though `RETURNING` promises none.
- Interleavings.RowsAreSerial: a webhook's notification and marker are written with its commit, under the event key and user lock already held, not by statements of their own. Its notification insert may in fact wait for a claim that is marking the same slot sent; a claim waits for nobody. Claims are one statement, as in the source. Audit rows stand in commit order, which per user and source is the order of their ids.
- Protocol.SoundThroughout: a carrier reply may come for any user and say anything, which allows more than the service does with its claimed rows.
- Postgres.Client: its methods take one clock value a call, and no other client acts during one; the runs and interleavings cover differing clocks and other clients.
- Workers.ReconcileOnce: with other writers at work new rows may fall due during a drain, so the statement that none is left is about a drain on its own with the clock at rest, as for the other two drains.
- A commit that reports failure is taken not to have committed, and what PostgreSQL does to provide atomic commits, locks and `READ COMMITTED` is assumed.
