# Verification of the ticketing core

A Dafny model of the parts of the ticketing system whose correctness depends on more than one function: what
happens to seats, orders and tickets under orders, payment webhooks and redemptions; the timed protocols around
them; and the codecs and algorithms that feed them. `dafny verify dfyconfig.toml` checks the whole project.

| file | models |
|---|---|
| `TicketLedger.dfy` | the tables `seat_state`, `orders`, `tickets` and each transaction as a function on them |
| `LedgerInvariant.dfy` | the invariant every transaction keeps |
| `LedgerRuns.dfy` | theorems over whole runs: first terminal event wins, sold forever, redeemed once, conservation |
| `EventDedupe.dfy` | what a delivery does exactly, and what a recorded event id is good for |
| `LedgerStore.dfy` | the handlers statement by statement, proved to take the tables where `TicketLedger` says |
| `OrderInterleaving.dfy` | order transactions side by side under row locks, refining atomic orders |
| `DeliveryInterleaving.dfy` | webhook deliveries interleaved statement by statement, refining `OrderInterleaving` |
| `SerialRuns.dfy` | the converse of both: every serial run is a run of the interleaved statements |
| `IdempotencyStore.dfy` | begin, commit and replay over a key-value store with expiry |
| `RateLimit.dfy` | the fixed-window limiter as in-memory bucket and as Redis counter |
| `EventStream.dfy` | server-sent events: the broadcaster and the chunked client parser |
| `SeatLocks.dfy` | release and extension of user seat locks |
| `Base64Url.dfy`, `TicketTokens.dfy` | the token codec, the key ring and its rotation |
| `SeatRows.dfy` | grouping seats into rows and labelling them |
| `RowHeights.dfy` | what the labels mean on the floor plan: rows by height, seats by position, and their order |
| `SeatmapTransform.dfy` | fitting a seatmap to a canvas |
| `TransformSettings.dfy` | what each setting of that decides: box, outlier clamp, flip, scale limits, centring, radius |
| `Slug.dfy` | the URL slug of an event name |
| `RollingHash.dfy` | the 32-bit request fingerprint |
| `SeatmapCache.dfy` | seatmap versions, publication and the cache of mobile views |
| `SeatmapAnswers.dfy` | what callers of it are told, for how long, and how stale it can get |

## How the system is read

- `withTenant` has already opened a transaction (packages/database/src/adapters/PostgresAdapter.ts:117-131), so the
  webhook's own COMMIT or ROLLBACK ends it, de-duplication row included. A delivery that rolls back may therefore be
  delivered again (`RolledBackMayReturn`); one that commits never matters again (`CommittedEventIsInert`).
- `FROM orders` in the failure branch (apps/api/src/v1/payments/routes.ts:246) is read as `orders.orders`, the table
  every other statement of the handler uses.
- Assumption: a payment intent belongs to at most one order, since the provider hands out fresh ones. The model takes
  an order whose intent is already taken to roll back, as a unique column would make it; the repository has such a
  column only on the table `orders` (packages/migrations/sql/0001_core.sql:32), not on `orders.orders`.
- The migration that creates `orders.orders` (packages/database/src/migrations/009_create_core_domain_tables.sql:84-93)
  has neither `payment_intent_id` nor the statuses `confirmed` and `failed` that the handlers write. The handlers are
  followed; a schema that refused their writes would turn those steps into faults.
- `Delivery.fault` stands for any statement of a webhook transaction that fails, the insert into `stripe_events`
  (apps/api/src/v1/payments/routes.ts:222-225) among them. Such a transaction changes nothing.
- The rows a delivery sees (`SeesSoldRows`) are those sold to its order after the seat update, each once, in any
  order; drawn ticket ids may collide, which rolls back.
- PostgreSQL READ COMMITTED: an UPDATE waits for a locked row and then checks its WHERE clause again.
- `toLowerCase`, SHA-256, Ed25519 signing, drawn random ids, clocks and the payment provider's answer are parameters.
  Where a theorem needs something of one of them, its `requires` says so.

## Where the code does less than it seems to

Each names the lemma that proves it; "exactly when" and "iff" are proved in both directions.

- An order can end up confirmed without seats: exactly when its first terminal event was a failure and its last one a
  success (`ConfirmedWithoutSeats`). The status is not monotone; seats and tickets are.
- A commit to the idempotency store does not check whose pending mark it replaces, so a late one overwrites a response
  stored in time (`LateCommitOverwrites`). A response is certain to be replayed exactly when its commit finds its key
  live and no other request that went ahead is still to commit (`AlwaysReplayedIff`).
- The fixed-window limiter lets 2*limit-1 requests through in one window length, and no more (`BoundIsReached`,
  `AdmittedInAnyInterval`).
- The event stream client looks for an LF blank line before it looks for a CRLF one, so streams that put a CRLF blank
  line before an LF one are cut differently depending on the chunks (`ChunkingIsSafe`).
- Section 9.2.6 of the WHATWG HTML Standard drops one space after the colon of a field and keeps the rest; the client
  trims both ends (`ParsesTrimmed`, `EdgeSpaceIsLost`); the JSON data the server sends has no such edges.
  `BlockParsesBackIff` says exactly which single blocks parse back, `ComesBackIff` exactly which events the client
  delivers as they were sent under every chunking, and `TwoLinesAreNotEnough` that the two differ.
- Swift reads CRLF as one Character, so the client does not split a block at it and a block with CRLF line ends loses
  its data to the event name (`CrlfBlockIsOneLine`). The server ends its lines with LF.
- Extending a lock counts from now and can shorten it (`ExtensionShortensIff`); an extension by zero seconds holds it
  for ever, until the next one (`HeldForeverIff`); a seat named twice in one request is released and failed
  (`ReleasedAndFailed`) or extended twice (`ExtendIsExact`). Extension asks for the owner, not for the fencing token
  (`ExtendChangesIff`).
- Acquiring a seat one already holds returns a new master token while the stored one stays, so a release with the new
  token fails unless it happens to match (`AcquireThenReleaseIff`, `NewMasterMatchesIff`).
- A key id with a dot makes its tokens unverifiable (`DottedKidNeverVerifies`); a rotation before the first use of the
  ring does not last (`RotationLastsIff`).
- The row grouping uses -1 as "no seat yet", and the seed's own shift puts seats of height 7.0 there
  (public/seatmaps/hamilton_simple_coords.json has such seats), so the row behind them is not split off
  (`SeatAtSevenSwallowsNextRow`, `RowsSplitAtGapsIff`); in all other respects rows are what their heights say
  (`RowsByHeight`).
- The transform computes offsets that count from the corner of the box, but the canvas draws a seat at
  `seat.x * scale + dx` and `seat.y * scale + dy`
  (ios/LastMinuteLive/LastMinuteLive/Features/Seatmap/Components/SeatmapCanvas.swift:114-115; `minX` is read at line 75
  and not used). `ScreenX` and `ScreenY` are therefore the intended mapping, `DrawnX` and `DrawnY` the drawn one. What is
  drawn is centred exactly when the scaled corner cancels (`DrawnCentredIff`), and inside exactly when there is room for
  it (`SeatsDrawnInsideIff`). The one caller's fine-tuning of -37.5 makes up for it at a single position of the seats
  (`ClientCentredIff`, `RightSeatIsCutOff`).
- Publishing a version that does not exist unpublishes the venue and leaves its cached views in place
  (`PublishCoherentIff`); such a view is served for at most an hour (`StaleByAtMostAnHour`).

## Model

| member | source | states |
|---|---|---|
| LedgerInvariant.ReserveAllOrNothing | apps/api/src/v1/orders/routes.ts:174-184 | the reservation loop succeeds exactly when the requested seat ids are pairwise distinct and all available, and then exactly those rows are reserved for the order; a repeated id is always a miss |
| LedgerInvariant.DistinctCount | apps/api/src/v1/orders/routes.ts:155-157 | distinct seat ids name as many seats as the total is computed from |
| LedgerInvariant.PlaceOrderAllOrNothing | apps/api/src/v1/orders/routes.ts:155-216 | an order either takes every requested seat and appears as pending, at 2500 a seat, or the whole ledger is unchanged; with the exact condition for each |
| LedgerInvariant.OrderKeepsInv | apps/api/src/v1/orders/routes.ts:160-216 | placing an order keeps the ledger invariant: a pending order owns exactly total/2500 seats, all reserved; a decided one owns all of them, sold, or none; tickets and sold seats in bijection |
| LedgerInvariant.IssueAllIssues | apps/api/src/v1/payments/routes.ts:201-218 | the ticket loop adds one fresh issued ticket for each row without one, and nothing else, whatever the order of the rows |
| LedgerInvariant.IssueAllSucceedsIff | apps/api/src/v1/payments/routes.ts:207-218 | the loop goes through exactly when the ids drawn for the rows that need a ticket are unused and pairwise distinct |
| LedgerInvariant.HasTicketMeansSeat | apps/api/src/v1/payments/routes.ts:212-214 | the NOT EXISTS guard, which compares order and seat but not performance, is nevertheless exact: a match means a ticket for that very seat |
| LedgerInvariant.ConfirmKeepsInv | apps/api/src/v1/payments/routes.ts:156-236 | a success delivery keeps the invariant |
| LedgerInvariant.FailKeepsInv | apps/api/src/v1/payments/routes.ts:238-277 | a failure or cancellation delivery keeps the invariant |
| LedgerInvariant.WebhookKeepsInv | apps/api/src/v1/payments/routes.ts:146-279 | every delivery keeps the invariant: duplicated, unknown, of another type, or rolled back anywhere |
| LedgerInvariant.RedeemKeepsInv | apps/api/src/v1/verification/routes.ts:84-92 | redeeming keeps the bijection of tickets and sold seats |
| LedgerInvariant.StepKeepsInv | apps/api/src/v1/payments/routes.ts:146-279 | the invariant is inductive over orders, deliveries and redemptions |
| LedgerInvariant.RunKeepsInv | apps/api/src/v1/payments/routes.ts:146-279 | so is it over whole runs |
| LedgerInvariant.EveryReachableLedger | tools/seed/seed-hamilton.ts:222-231 | the invariant holds in every ledger reachable from the seeded one |
| LedgerRuns.StepOnOrder | apps/api/src/v1/payments/routes.ts:156-277 | the exact effect of any step on any one order: none unless it is a committing terminal event for it; status follows the event; seats move only if the order was still pending |
| LedgerRuns.DecisionIsFinal | apps/api/src/v1/payments/routes.ts:192-219 | once an order is decided, no later step of any kind changes the seats it holds or which tickets it has |
| LedgerRuns.FirstTerminalEventWins | apps/api/src/v1/payments/routes.ts:148-277 | over any run, the first committing terminal event of a pending order decides its seats and tickets for good: all sold to it with one ticket each, or all given back and no ticket; without such an event nothing of it changes |
| LedgerRuns.StatusFollowsLastEvent | apps/api/src/v1/payments/routes.ts:185-189 | the order status is not monotone: it follows the last committing terminal event |
| LedgerRuns.ConfirmedWithoutSeats | apps/api/src/v1/payments/routes.ts:179-197 | exact condition for a confirmed order without seats: the first deciding event was a failure and the last one a success |
| LedgerRuns.FailureThenSuccess | apps/api/src/v1/payments/routes.ts:179-197 | a concrete run that ends with such an order |
| LedgerRuns.LaterDeliveryIsInert | apps/api/src/v1/payments/routes.ts:148-277 | a later delivery for a decided order, with or without an event id, leaves the whole seat table and the whole ticket table unchanged |
| LedgerRuns.SaleIssuesOnePerSeat | apps/api/src/v1/payments/routes.ts:191-218 | selling a pending order issues exactly one unused ticket per seat it holds and touches no other ticket |
| LedgerRuns.OneTicketPerOwnedSeat | apps/api/src/v1/payments/routes.ts:191-218 | a decided order has exactly as many tickets as seats |
| LedgerRuns.AsManyTicketsAsSoldSeats | apps/api/src/v1/payments/routes.ts:191-218 | in every reachable ledger there are as many tickets as sold seats |
| LedgerRuns.StepKeepsSales | apps/api/src/v1/payments/routes.ts:192-197 | no step changes a sold row or removes or moves a ticket, from any ledger at all |
| LedgerRuns.SoldForever | apps/api/src/v1/payments/routes.ts:192-197 | the same over whole runs: sold never changes again |
| LedgerRuns.RedeemedAtMostOnce | apps/api/src/v1/verification/routes.ts:84-92 | in any run from any ledger a jti is answered "redeemed" at most once, and is redeemed at the end exactly if it was before or that happened |
| LedgerRuns.ReplyTellsHistory | apps/api/src/v1/verification/routes.ts:84-92 | the four replies after any run: unknown iff there is no such ticket, revoked iff it was so from the start, already redeemed iff it was so from the start or the run redeemed it, redeemed now otherwise, and then that ticket alone changes |
| LedgerRuns.RevenueOf | apps/api/src/v1/orders/routes.ts:155-157 | for any set of selling orders, 2500 times their sold seats is the sum of their totals |
| LedgerRuns.Conservation | apps/api/src/v1/orders/routes.ts:155-184 | in every reachable ledger available + reserved + sold is the catalogue, and 2500 times the sold seats is the sum of total_minor over the orders that own them |
| LedgerStore.Store.constructor | tools/seed/seed-hamilton.ts:222-231 | the seeded tables: every catalogue seat available |
| LedgerStore.Store.ReserveSeat | apps/api/src/v1/orders/routes.ts:175-179 | the guarded UPDATE changes the row exactly if it was available, and the row count says so |
| LedgerStore.Store.ReserveSeats | apps/api/src/v1/orders/routes.ts:174-184 | the loop over seat ids computes the all-or-nothing reservation |
| LedgerStore.Store.SelectOrder | apps/api/src/v1/payments/routes.ts:164-167 | the lookup finds the one order with this payment intent |
| LedgerStore.Store.SelectSold | apps/api/src/v1/payments/routes.ts:202-205 | the query returns each sold seat of the order once |
| LedgerStore.Store.CreateOrder | apps/api/src/v1/orders/routes.ts:160-216 | insert, reserve, attach the intent, COMMIT or ROLLBACK: the tables end exactly where the specified transaction says, and `created` says which |
| LedgerStore.Store.InsertOrder | apps/api/src/v1/orders/routes.ts:162-214 | the same without the invariant, from any tables |
| LedgerStore.Store.IssueTickets | apps/api/src/v1/payments/routes.ts:206-218 | the insert loop and its running counter |
| LedgerStore.Store.Confirm | apps/api/src/v1/payments/routes.ts:156-236 | the success branch statement by statement, with its three rollbacks that also drop the de-duplication row |
| LedgerStore.Store.Fail | apps/api/src/v1/payments/routes.ts:238-277 | the failure branch statement by statement |
| LedgerStore.Store.HandleWebhook | apps/api/src/v1/payments/routes.ts:146-279 | the whole handler refines the specified delivery, keeps the invariant, answers `deduped` exactly for an event recorded before, and then changes nothing; `issued` counts the new tickets |
| LedgerStore.Store.RedeemTicket | apps/api/src/v1/verification/routes.ts:84-92 | the status machine of redemption: new tables and reply |
| EventDedupe.DeliveryIsExact | apps/api/src/v1/payments/routes.ts:146-279 | what one delivery does in any ledger: nothing unless it commits (it names an intent, no statement fails, its event is new, and a success finds an order that is not over and unused ticket ids); else its event is recorded and a success sells the reserved seats and issues the missing tickets, a failure gives them back, anything else changes no table |
| EventDedupe.SeenIff | apps/api/src/v1/payments/routes.ts:147-155 | an event id is recorded exactly if it was before or the step is a delivery of it that commits |
| EventDedupe.RecordedIsInert | apps/api/src/v1/payments/routes.ts:150-154 | a delivery of a recorded event leaves the whole ledger as it is |
| EventDedupe.EventCommitsAtMostOnce | apps/api/src/v1/payments/routes.ts:147-155 | in any run from any ledger an event commits at most once, is recorded at the end exactly if it was before or that happened, and stays recorded |
| EventDedupe.RedeliveriesDoNothing | apps/api/src/v1/payments/routes.ts:147-155 | once an event is recorded, its deliveries can be struck from any run without changing where it leads |
| EventDedupe.CommittedEventIsInert | apps/api/src/v1/payments/routes.ts:147-155 | after a delivery of an event has committed, whatever happens in between: every later delivery of it, of any type and for any order, leaves the whole ledger as it is, order status included |
| EventDedupe.RolledBackMayReturn | apps/api/src/v1/payments/routes.ts:171-181 | a delivery that rolls back leaves no trace: delivered again it does what a first delivery would |
| OrderInterleaving.CommitIsAtomicOrder | apps/api/src/v1/orders/routes.ts:162-210 | a seat-by-seat transaction under row locks, when it commits, does what one atomic order does at that moment |
| OrderInterleaving.MissIsAtomicFailure | apps/api/src/v1/orders/routes.ts:181-183 | a transaction that misses a seat could not have placed its order atomically at that moment either |
| OrderInterleaving.EventRefines | packages/database/src/adapters/PostgresAdapter.ts:117-131 | every event of the interleaved system is zero or one step of the atomic ledger |
| OrderInterleaving.OtherStepsAvoidLocks | apps/api/src/v1/payments/routes.ts:192-197 | webhooks and redemptions never write a row an open order transaction holds locked |
| OrderInterleaving.EventKeepsInv | apps/api/src/v1/orders/routes.ts:160-216 | open transactions keep disjoint locked rows that are free in the committed table |
| OrderInterleaving.InterleavingsAreSerial | apps/api/src/v1/orders/routes.ts:160-216 | any interleaving of order transactions, misses and aborts anywhere, commits exactly what some serial run of atomic orders, deliveries and redemptions commits, and keeps the invariant |
| OrderInterleaving.CommitTakesNobodysSeat | apps/api/src/v1/orders/routes.ts:174-184 | a commit gives the order exactly the seats it asked for and leaves every other order's seats as they were |
| OrderInterleaving.EveryRunIsSerial | tools/seed/seed-hamilton.ts:222-231 | the serial-run theorem from the seeded ledger with no transaction open |
| DeliveryInterleaving.IssueFirstIsLoop | apps/api/src/v1/payments/routes.ts:207-218 | inserting row by row, with other transactions in between, amounts to the ticket loop |
| DeliveryInterleaving.IssueFirstStable | apps/api/src/v1/payments/routes.ts:212-214 | tickets that others add for other orders under other ids make no difference to it |
| DeliveryInterleaving.OvertakenIsInert | apps/api/src/v1/payments/routes.ts:179-219 | a success that another success has overtaken between its guard and its update sells nothing and issues nothing |
| DeliveryInterleaving.CommitIsAtomicDelivery | apps/api/src/v1/payments/routes.ts:156-277 | a delivery executed statement by statement commits what one atomic delivery does at that moment |
| DeliveryInterleaving.EventRefines | apps/api/src/v1/payments/routes.ts:146-279 | every statement is no step of the coarser system or one that can happen there |
| DeliveryInterleaving.EventKeepsInv | apps/api/src/v1/payments/routes.ts:185-218 | open deliveries hold disjoint order rows, events and ticket ids, and the rows they work on stay as they found them |
| DeliveryInterleaving.RunRefines | apps/api/src/v1/payments/routes.ts:146-279 | every statement-level run is a run of OrderInterleaving with each delivery as one step |
| DeliveryInterleaving.DeliveriesAreSerial | apps/api/src/v1/payments/routes.ts:146-279 | success and failure deliveries, interleaved with each other and with order transactions, aborts anywhere, commit exactly what some serial run of atomic steps commits; no seat ever has two tickets |
| DeliveryInterleaving.EveryRunIsSerial | tools/seed/seed-hamilton.ts:222-231 | the same from the seeded ledger with no transaction open |
| SerialRuns.OrderHappens | apps/api/src/v1/orders/routes.ts:160-216 | an order that can be placed is placed by a transaction that updates its rows one by one |
| SerialRuns.DeliveryHappens | apps/api/src/v1/payments/routes.ts:146-279 | a delivery that commits can do so statement by statement |
| SerialRuns.EverySerialRunHappens | packages/database/src/adapters/PostgresAdapter.ts:117-131 | every serial run of the atomic ledger is a run of the interleaved statements that leaves no transaction open |
| SerialRuns.SameLedgersReached | packages/database/src/adapters/PostgresAdapter.ts:117-131 | from the seeded ledger the interleaved statements can commit exactly the ledgers that serial runs lead to |
| IdempotencyStore.Store.constructor | packages/idempotency/src/store.ts:9-10 | an empty store |
| IdempotencyStore.Store.Set | packages/idempotency/src/store.ts:6 | SET with EX and NX or XX over keys that expire |
| IdempotencyStore.Store.Get | packages/idempotency/src/store.ts:11-14 | the live value or missing |
| IdempotencyStore.Store.Begin | packages/idempotency/src/store.ts:15-24 | SET NX pending, otherwise what is there; other keys untouched |
| IdempotencyStore.Store.Commit | packages/idempotency/src/store.ts:25-29 | SET XX committed: written only over a live key |
| IdempotencyStore.GoesAheadIffDead | apps/api/src/v1/inventory/routes.ts:112-131 | with fresh request ids a request goes ahead exactly when its key is absent or expired |
| IdempotencyStore.HeldFor | packages/idempotency/src/store.ts:15-29 | from a go-ahead on the key stays live for at least the pending time to live, late commits included |
| IdempotencyStore.GoAheadsApart | packages/idempotency/src/store.ts:15-29 | two go-aheads for one key are at least the pending time to live apart |
| IdempotencyStore.ReplaysLatestCommit | apps/api/src/v1/orders/routes.ts:110-116 | after a commit that finds its key live, every begin within the stored time to live is answered with the latest commit: its status and, unless it is missing or empty, its body |
| IdempotencyStore.RepliesByHistory | apps/api/src/v1/inventory/routes.ts:112-131 | the three replies of a route, told from the history alone: 202 iff a request that went ahead less than the pending time to live ago has not committed since, a replay of status and body iff the latest commit found its key live and is younger than the stored time to live, and going ahead iff neither |
| IdempotencyStore.LaterCommitWasOpen | packages/idempotency/src/store.ts:25-29 | while a response is stored, any further commit comes from a request that had gone ahead and not committed when it was stored |
| IdempotencyStore.CommitInTime | apps/api/src/v1/orders/routes.ts:103-116 | for any request that commits before its pending mark runs out: nobody goes ahead within the stored time to live; every further commit is by a request that went ahead earlier and overran; a begin replays this response exactly when the latest commit carries it |
| IdempotencyStore.AlwaysReplayedIff | apps/api/src/v1/orders/routes.ts:103-116 | the exact condition, known at the commit: its status and body are the reply to every begin within the stored time to live, in every continuation, iff it finds its key live and no other request that went ahead is still to commit |
| IdempotencyStore.LateCommitOverwrites | packages/idempotency/src/store.ts:25-29 | a concrete run: a request that overran its pending mark replaces the response a later request stored in time |
| RateLimit.BucketLimiter.constructor | packages/ratelimit/src/middleware.ts:45-48 | no buckets |
| RateLimit.BucketLimiter.Allow | apps/api/src/middleware/rateLimit.ts:12-34 | the in-memory limiter: bucket after the request, decision, seconds to reset rounded up; other keys untouched |
| RateLimit.CounterLimiter.constructor | packages/ratelimit/src/middleware.ts:15-17 | no counters |
| RateLimit.CounterLimiter.Incr | packages/ratelimit/src/middleware.ts:29 | INCR over keys that expire |
| RateLimit.CounterLimiter.Ttl | packages/ratelimit/src/middleware.ts:35 | the remaining time in whole seconds, off by half a second at most |
| RateLimit.CounterLimiter.Allow | packages/ratelimit/src/middleware.ts:24-40 | INCR and EXPIRE NX, the comparison with the limit, and the retry time of a rejected request |
| RateLimit.SameDecisions | packages/ratelimit/src/middleware.ts:24-66 | on every request sequence bucket and counter decide alike and report the same remaining count, although the counter also counts rejected requests |
| RateLimit.AdmittedInAnyInterval | packages/ratelimit/src/middleware.ts:53-63 | with a monotone clock at most 2*limit-1 requests per key get through in any half-open interval of one window length |
| RateLimit.OwnWindowAdmitsLimit | packages/ratelimit/src/middleware.ts:53-63 | in its own window a key gets exactly the first `limit` of its requests through, and the bucket holds the rest |
| RateLimit.AnswerInOwnWindow | packages/ratelimit/src/middleware.ts:53-65 | what each request of a window is told: that it passes and how many more may, until `limit` have, and then that it does not |
| RateLimit.BurstPasses | packages/ratelimit/src/middleware.ts:53-63 | how many of the first n requests of a certain burst get through |
| RateLimit.BoundIsReached | packages/ratelimit/src/middleware.ts:53-63 | for every limit and every window longer than a tick the bound 2*limit-1 is reached |
| EventStream.Client.constructor | ios/ThankfulApp/Core/SSEClient.swift:30-32 | an empty buffer |
| EventStream.Client.DidReceive | ios/ThankfulApp/Core/SSEClient.swift:34-44 | append, then cut and deliver every complete block; terminates |
| EventStream.Client.ParseEventBlock | ios/ThankfulApp/Core/SSEClient.swift:46-59 | the parse of one block |
| EventStream.Connection.constructor | apps/api/src/utils/sse.ts:1-3 | a client that has been sent nothing |
| EventStream.Hub.constructor | apps/api/src/utils/sse.ts:3 | no clients |
| EventStream.Hub.AddClient | apps/api/src/utils/sse.ts:5-7 | the set of clients grows by one |
| EventStream.Hub.RemoveClient | apps/api/src/utils/sse.ts:9-11 | and shrinks by one |
| EventStream.Hub.Broadcast | apps/api/src/utils/sse.ts:13-18 | every client gets the whole payload; a failing write stops nobody else's |
| EventStream.FeedTwice | ios/ThankfulApp/Core/SSEClient.swift:34-44 | feeding a and then b cuts the same blocks and leaves the same buffer as feeding a+b, unless a CRLF blank line stands before an LF blank line |
| EventStream.ChunksDoNotMatter | ios/ThankfulApp/Core/SSEClient.swift:34-44 | the same for any number of chunks |
| EventStream.ChunkingIsSafe | ios/ThankfulApp/Core/SSEClient.swift:37 | exactly which streams may be cut anywhere: those in which no CRLF blank line stands before an LF blank line |
| EventStream.LfOnlyDoesNotMix | ios/ThankfulApp/Core/SSEClient.swift:37 | every stream without CR is one of them |
| EventStream.ParsesTrimmed | ios/ThankfulApp/Core/SSEClient.swift:46-59 | an event that prints as two lines comes back with both fields trimmed |
| EventStream.TrimIsExact | ios/ThankfulApp/Core/SSEClient.swift:51-53 | trimming takes all spaces and tabs off both ends and nothing else |
| EventStream.BlockIsExact | ios/ThankfulApp/Core/SSEClient.swift:46-59 | what the client makes of a block of any lines: the trimmed value of the last "event:" line, or "message"; the trimmed values of all "data:" lines in order with line feeds between them; other lines are passed over |
| EventStream.BlockParsesBackIff | ios/ThankfulApp/Core/SSEClient.swift:46-59 | exactly which single blocks parse back to the event they print, breaks and carriage returns in the fields included |
| EventStream.ComesBackIff | ios/ThankfulApp/Core/SSEClient.swift:34-59 | exactly which events the client delivers as they were sent under every chunking, with nothing kept back: one block of two lines, no white space at the edges of the fields |
| EventStream.NameEndingInLfIsCut | ios/ThankfulApp/Core/SSEClient.swift:37 | a name that ends in a line feed makes a blank line, and the event is not delivered as sent |
| EventStream.TwoLinesAreNotEnough | ios/ThankfulApp/Core/SSEClient.swift:34-59 | one event that parses back as a block and is not delivered as sent |
| EventStream.EdgeSpaceIsLost | ios/ThankfulApp/Core/SSEClient.swift:51-53 | one event with a space at an edge, and what comes back |
| EventStream.CrlfBlockIsOneLine | ios/ThankfulApp/Core/SSEClient.swift:49 | a block whose lines end in CRLF is one line: its data becomes part of the event name |
| EventStream.ParsesBack | ios/ThankfulApp/Core/SSEClient.swift:46-59 | clean events come back unchanged |
| EventStream.WireDrains | apps/api/src/utils/sse.ts:14 | the concatenated broadcasts are cut into exactly the broadcast events, with nothing left over |
| EventStream.BroadcastRoundTrip | ios/ThankfulApp/Core/SSEClient.swift:34-59 | for every list of clean (event, data) pairs and every chunking, the client delivers exactly that list and keeps nothing back |
| SeatLocks.LockService.constructor | services/inventory/infrastructure/services/RedisSeatLockService.ts:152-157 | no locks |
| SeatLocks.LockService.SeatsFor | services/inventory/infrastructure/services/RedisSeatLockService.ts:159-167 | the seats a request names, else the user's recorded seats whose id starts with the event id, each once |
| SeatLocks.LockService.Release | services/inventory/infrastructure/services/RedisSeatLockService.ts:169-222 | the release loop: locks, both lists, and the user's set |
| SeatLocks.LockService.Extend | services/inventory/infrastructure/services/RedisSeatLockService.ts:269-334 | the extension loop and the remaining count of the last extended lock |
| SeatLocks.ReleaseIsExact | services/inventory/infrastructure/services/RedisSeatLockService.ts:172-222 | every requested seat is answered for exactly once; exactly the seats are freed whose lock stands, is the caller's and has a token that starts with the one shown; every other lock is untouched |
| SeatLocks.ReleaseReasons | services/inventory/infrastructure/services/RedisSeatLockService.ts:180-208 | each reason is given exactly when it is the true one: no standing lock (or released by an earlier naming), another owner, or a token that does not match |
| SeatLocks.ReleasedAndFailed | services/inventory/infrastructure/services/RedisSeatLockService.ts:172-222 | a seat is both released and failed exactly when it was releasable and named more than once |
| SeatLocks.AcquireThenReleaseIff | services/inventory/infrastructure/services/RedisSeatLockService.ts:189-214 | when the master token an acquisition returned gives the seat back: iff it made the lock and the lock has not run out, or the caller held the seat already, still does, and the stored token starts with the new one; the table is then as before without the seat |
| SeatLocks.NewMasterMatchesIff | services/inventory/infrastructure/services/RedisSeatLockService.ts:589-593 | the token of a repeated acquisition matches the stored one exactly for the same millisecond and a random part that starts the old one |
| SeatLocks.ExtensionShortensIff | services/inventory/infrastructure/services/RedisSeatLockService.ts:275-315 | a request shortens a lock exactly when it extends it by some time, but less than the lock has left |
| SeatLocks.ExtendIsExact | services/inventory/infrastructure/services/RedisSeatLockService.ts:275-334 | for any request, repeated seats included: a lock that stands and is the caller's is extended once for each naming, up to what is left to it, to the given time from now; every other naming fails; no lock is added or removed |
| SeatLocks.ExtendChangesIff | services/inventory/infrastructure/services/RedisSeatLockService.ts:281-315 | a request changes exactly the locks it names that have not expired, are the caller's and have an extension left |
| SeatLocks.OthersLocksAreSafe | services/inventory/infrastructure/services/RedisSeatLockService.ts:290-298 | another user's lock stays as it is, every naming of it fails, and with `invalid_token` while it stands |
| SeatLocks.ExtendReasons | services/inventory/infrastructure/services/RedisSeatLockService.ts:281-307 | each reason is given exactly when it is the true one, the last when the namings exceed the extensions left |
| SeatLocks.ExtendedIsExact | services/inventory/infrastructure/services/RedisSeatLockService.ts:309-326 | the locks handed back are exactly those the extensions left, one by one |
| SeatLocks.AcquireThenExtend | services/inventory/infrastructure/lua/acquire_seat_locks.lua:72-87 | a seat just acquired carries its user, its own token and its limit, and is extended by its user, and nobody else, as often as the limit allows |
| SeatLocks.LifetimeIsBounded | services/inventory/infrastructure/services/RedisSeatLockService.ts:300-315 | in any run no lock outlives acquisition + ttl + max_extensions * A, for extensions between 1 and A seconds, and extension_count never exceeds max_extensions |
| SeatLocks.HeldForeverIff | packages/database/src/adapters/RedisAdapter.ts:116-122 | in any run a lock is held for ever exactly when the latest extension it was granted was by zero seconds |
| Base64Url.UnpackSextets | packages/verification/src/keys.ts:5-8 | unpacking sextets undoes packing bytes, for all lengths |
| Base64Url.UrlIsDigits | packages/verification/src/keys.ts:7 | stripping padding and replacing two characters loses nothing |
| Base64Url.NodeRoundTrip | packages/verification/src/keys.ts:71-72 | the server decodes what it encoded, signature form included, for every byte string |
| Base64Url.SwiftRoundTrip | ios/ThankfulApp/Core/Verifier.swift:17-22 | so does the mobile client, which restores the padding and decodes strictly |
| Base64Url.UrlIsDotFree | apps/api/src/v1/verification/routes.ts:36 | encoded text has no dot, so it cannot break the token apart |
| Base64Url.GroupsSpell | packages/verification/src/keys.ts:6-7 | each group of four sextets spells the number its three bytes spell; a shorter one at the end has zero spare bits |
| Base64Url.UrlIsAlphabet | packages/verification/src/keys.ts:7 | the text, character by character: the URL-safe alphabet of RFC 4648 (table 2) at the sextets, without padding |
| Base64Url.NodeIgnores | apps/api/src/v1/verification/routes.ts:68 | the decoder passes over characters of neither alphabet and reads nothing behind a "=" |
| TicketTokens.SplitAtDot | apps/api/src/v1/verification/routes.ts:63 | splitting at a dot splits both sides |
| TicketTokens.ServerRecoversParts | apps/api/src/v1/verification/routes.ts:62-67 | the server gets five parts back exactly when the key id has no dot, and then the right ones |
| TicketTokens.ClientRecoversParts | ios/ThankfulApp/Core/Verifier.swift:84-88 | the mobile client, which drops empty pieces, exactly when moreover no part is empty |
| TicketTokens.Keyring.constructor | packages/verification/src/keys.ts:11-12 | an empty key ring |
| TicketTokens.Keyring.GetOrCreateKeyPair | packages/verification/src/keys.ts:14-39 | lazy initialisation; returns the active pair |
| TicketTokens.Keyring.RotateKeyPair | packages/verification/src/keys.ts:41-49 | adds and activates; older keys stay |
| TicketTokens.Keyring.GetPublicKeyByKid | packages/verification/src/keys.ts:51-54 | lookup by key id |
| TicketTokens.VerifiesIffSameSignature | apps/api/src/v1/verification/routes.ts:62-70 | a built token verifies to its own payload exactly when the ring's key for its id signs the same |
| TicketTokens.VerifiesIff | apps/api/src/v1/verification/routes.ts:61-70 | which of all texts verify, and to what: "ed25519.v1.", then three dot-free parts, the second of which is the signature of the decoded third under the key the first one names or, if the ring does not know it, the active key |
| TicketTokens.DottedKidNeverVerifies | apps/api/src/v1/verification/routes.ts:64 | a key id with a dot makes every token it signs unverifiable |
| TicketTokens.TokenSurvivesRotations | packages/verification/src/keys.ts:41-49 | a token still verifies, to the same payload, after any initialisations and rotations that spare its key id |
| TicketTokens.RotationBreaksTokenIff | packages/verification/src/keys.ts:43 | a rotation to a new key breaks a token exactly when it reuses the token's key id |
| TicketTokens.RotationLastsIff | packages/verification/src/keys.ts:14-49 | over any history and any later uses of the ring, a rotation stays in force iff there are no later uses, the configured key id was in the ring before, or it is the rotated one; otherwise the configured key is active, and it is the one in the ring or else the one the first use brings |
| SeatRows.SortSorts | tools/seed/seed-hamilton.ts:59 | the sort orders and permutes |
| SeatRows.GroupRows | tools/seed/seed-hamilton.ts:61-79 | the grouping loop with its sentinel computes the specified rows |
| SeatRows.RowsCut | tools/seed/seed-hamilton.ts:61-79 | rows cut the sorted seats without losing or moving any, and none is empty |
| SeatRows.CutReads | tools/seed/seed-hamilton.ts:68 | what a cut says of any row and of any two neighbouring rows |
| SeatRows.RowsFollowTest | tools/seed/seed-hamilton.ts:68 | rows are cut at exactly the places where the code's test says so |
| SeatRows.RowsSplitAtGapsIff | tools/seed/seed-hamilton.ts:64-68 | rows are runs of steps of at most 1.0 in y, separated by more, if and only if no seat at height -1 is followed by a gap |
| SeatRows.SeatAtSevenSwallowsNextRow | tools/seed/seed-hamilton.ts:44 | the shift puts height 7.0 of the seatmap file on the sentinel, and then the next row is swallowed at any distance |
| SeatRows.LabelOneSection | tools/seed/seed-hamilton.ts:81-95 | the two labelling loops |
| SeatRows.GroupSections | tools/seed/seed-hamilton.ts:48-52 | the reduce: each section's seats in input order |
| SeatRows.Enhance | tools/seed/seed-hamilton.ts:39-99 | the whole enhancement, from the seats of the file |
| SeatRows.EnhancedIsPermutation | tools/seed/seed-hamilton.ts:47-99 | every seat comes out labelled exactly once |
| SeatRows.RowRunsLeftToRight | tools/seed/seed-hamilton.ts:84-93 | x never decreases along a row and numbers count up from one |
| SeatRows.UniqueIff | tools/seed/seed-hamilton.ts:85 | row and number are unique in a section exactly when it has at most 65536 rows |
| SeatRows.LabelsAreUnique | tools/seed/seed-hamilton.ts:57-96 | section, row and number name at most one seat, as long as no section has more than 65536 rows |
| RowHeights.RowsByHeight | tools/seed/seed-hamilton.ts:57-95 | the labels by height and position alone: in a section every later row lies more than 1.0 above every earlier one; two seats of a row more than 1.0 apart have another close above the lower, unless that one is at -1, which shares its row with the next height; rows are lettered from A and seats numbered from 1 without gaps or repeats, by x and at equal x upwards |
| RowHeights.LabelsInOrder | tools/seed/seed-hamilton.ts:47-95 | the order of the output: sections by first appearance, then rows from the lowest, then numbers; so no two seats of a section share row and number |
| RowHeights.RowsApart | tools/seed/seed-hamilton.ts:59-79 | the rows of seats in ascending order are more than 1.0 apart, and each is ascending |
| RowHeights.StableSort | tools/seed/seed-hamilton.ts:84 | sorting a row by x leaves seats of equal x in ascending order |
| RowHeights.SeededIsPermutation | tools/seed/seed-hamilton.ts:43-44 | the seats that come out, moved back by 5 and 8, are the seats of the file, each as often as there |
| SeatmapTransform.LeastIsLeast | ios/LastMinuteLive/LastMinuteLive/Engine/SeatmapTransform.swift:47-52 | the least coordinate |
| SeatmapTransform.GreatestIsGreatest | ios/LastMinuteLive/LastMinuteLive/Engine/SeatmapTransform.swift:47-52 | the greatest coordinate |
| SeatmapTransform.SeatsInBox | ios/LastMinuteLive/LastMinuteLive/Engine/SeatmapTransform.swift:47-62 | every seat lies in the (possibly widened) box of the seats |
| SeatmapTransform.QuantilesAreOrdered | ios/LastMinuteLive/LastMinuteLive/Engine/SeatmapTransform.swift:91-100 | percentiles are sample values and grow with the fraction |
| SeatmapTransform.ClampCutsDown | ios/LastMinuteLive/LastMinuteLive/Engine/SeatmapTransform.swift:83-111 | the outlier clamp leaves the box alone or cuts it to a part of the seats' box, never inverted |
| SeatmapTransform.SeatsLandInsideIff | ios/LastMinuteLive/LastMinuteLive/Engine/SeatmapTransform.swift:124-166 | exact, for every outlier clamp, scale limit and fine-tuning: all seats are meant inside the padded canvas iff both scaled spans of the seats fit into it with the fine-tuning on either side; meant is a mapping relative to the corner of the box |
| SeatmapTransform.SeatsDrawnInsideIff | ios/LastMinuteLive/LastMinuteLive/Features/Seatmap/Components/SeatmapCanvas.swift:114-115 | the exact law of what is drawn: the same with room for the scaled corner of the box, which the drawing leaves out, flipped or not |
| SeatmapTransform.SeatsLandInside | ios/LastMinuteLive/LastMinuteLive/Engine/SeatmapTransform.swift:124-166 | without fine-tuning they are meant inside unless the scale was raised to its minimum or computed from a box smaller than the seats' own |
| SeatmapTransform.InsideIffNotRaised | ios/LastMinuteLive/LastMinuteLive/Engine/SeatmapTransform.swift:144-147 | for seats at least one apart on both axes, an idle clamp and no fine-tuning, exactly when the scale was not raised |
| SeatmapTransform.FillsIff | ios/LastMinuteLive/LastMinuteLive/Engine/SeatmapTransform.swift:154-166 | an axis is meant to run from padded edge to padded edge exactly when its scaled span is the padded length and nothing moves it; the width is drawn so exactly when the drawn shift vanishes too |
| SeatmapTransform.MidpointIsCentred | ios/LastMinuteLive/LastMinuteLive/Engine/SeatmapTransform.swift:154-166 | the midpoint of the seats is meant for the middle of the canvas, fine-tuning aside, whatever the outlier clamp and the scale limits did |
| SeatmapTransform.DrawnCentredIff | ios/LastMinuteLive/LastMinuteLive/Features/Seatmap/Components/SeatmapCanvas.swift:114-115 | exactly when the midpoint is drawn in the middle: the scaled corner of the box cancels against the fine-tuning, and the box starts at height 0 or, flipped, ends at the sum of the lowest and highest seat |
| SeatmapTransform.ClientCentredIff | ios/LastMinuteLive/LastMinuteLive/Features/SeatmapScreen.swift:404-419 | for the settings of the one caller: exactly when the leftmost seat, scaled, is at 37.5, and the topmost at 0 |
| SeatmapTransform.RightSeatIsCutOff | ios/LastMinuteLive/LastMinuteLive/Features/SeatmapScreen.swift:404-419 | two seats which that caller draws off centre, one of them beyond the padding |
| SeatmapTransform.SomeAxisFills | ios/LastMinuteLive/LastMinuteLive/Engine/SeatmapTransform.swift:144-166 | with both spans at least one, no limit at work and no fine-tuning, some axis is meant to run from padded edge to padded edge |
| TransformSettings.BoxIsExact | ios/LastMinuteLive/LastMinuteLive/Engine/SeatmapTransform.swift:47-104 | which box the scale is computed from: the viewport, without optimal scaling only; else the seats' own, widened by epsilon if a side is zero; or, if the clamp is on and a side is over three times its trimmed length, that of the 1st and 99th percentiles |
| TransformSettings.QuantileHasRank | ios/LastMinuteLive/LastMinuteLive/Engine/SeatmapTransform.swift:86-91 | the percentile at fraction p of n values: at most floor((n-1)p) of them are less, and more than that many are at most it |
| TransformSettings.FlipIff | ios/LastMinuteLive/LastMinuteLive/Engine/SeatmapTransform.swift:107-121 | the flip: the override, or "up", or neither "up" nor "down" and more than half of the seats nearer to the bottom of the box than to its top |
| TransformSettings.ScaleIsExact | ios/LastMinuteLive/LastMinuteLive/Engine/SeatmapTransform.swift:124-147 | the scale at which the box just fits the area inside the padding, or the limit which that one oversteps, and `scaleClamped` says which |
| TransformSettings.BoxIsCentred | ios/LastMinuteLive/LastMinuteLive/Engine/SeatmapTransform.swift:167-177 | without perfect centring the box is meant for the middle of each axis, or its start if it does not fit or nothing is centred |
| TransformSettings.RadiusIsExact | ios/LastMinuteLive/LastMinuteLive/Engine/SeatmapTransform.swift:180 | radius times scale is the base radius between the two limits, of which the lower prevails |
| Slug.CollapsesFuse | services/ticketing/application/usecases/CreateEvent.ts:174-175 | white space to hyphens and then hyphen runs to one equals separator runs to one hyphen |
| Slug.SlugIsOnePass | services/ticketing/application/usecases/CreateEvent.ts:169-177 | the chain of six operations and one left-to-right pass build the same slug from every name |
| Slug.SlugsAreNormal | services/ticketing/application/usecases/CreateEvent.ts:169-177 | slugs use only a-z, 0-9, underscore and hyphen, with no double, leading or trailing hyphen; and a name is its own slug exactly when it has that form |
| Slug.SlugTwice | services/ticketing/application/usecases/CreateEvent.ts:169-177 | a second application changes nothing |
| Slug.SlugKeepsWords | services/ticketing/application/usecases/CreateEvent.ts:173 | the letters, digits and underscores of the lowered name all survive, in order |
| Slug.SlugJoins | services/ticketing/application/usecases/CreateEvent.ts:169-177 | where other than word characters stand between two parts of the lowered name, the slugs of the parts are joined by exactly one hyphen if white space (listed character by character) or a hyphen is among them and neither slug is empty; else those characters might as well not be there |
| Slug.SlugOfWord | services/ticketing/application/usecases/CreateEvent.ts:173 | a word is its own slug; with SlugJoins this fixes the slug of every name |
| RollingHash.ToInt32 | packages/idempotency/src/index.ts:19 | `| 0` gives the signed 32-bit integer congruent to its argument |
| RollingHash.PolynomialConcat | packages/idempotency/src/index.ts:19 | the polynomial of a concatenation, over unbounded integers |
| RollingHash.Hash | packages/idempotency/src/index.ts:17-20 | the signed 32-bit loop computes the polynomial in 31 modulo 2^32, for every string |
| RollingHash.HashConcat | packages/idempotency/src/index.ts:17-20 | hash(a+b) = hash(a)*31^|b| + hash(b) modulo 2^32 |
| RollingHash.EndCancels | packages/idempotency/src/index.ts:17-20 | with a common end, texts collide exactly when what precedes it does (31 is invertible modulo 2^32) |
| RollingHash.StartCancels | packages/idempotency/src/index.ts:17-20 | with a common start, texts of equal length collide exactly when the rests do |
| RollingHash.OneChangeIsSeen | packages/idempotency/src/index.ts:17-20 | replacing one code unit always changes the hash |
| RollingHash.TwoChangesAreMissedIff | packages/idempotency/src/index.ts:17-20 | two neighbouring changes are missed exactly when they balance, as "Aa" and "BB" do |
| SeatmapCache.FindVersion | services/venues/infrastructure/repositories/MongoSeatmapRepository.ts:33-36 | the first document of a venue and version, or none |
| SeatmapCache.Repository.constructor | services/venues/infrastructure/repositories/MongoSeatmapRepository.ts:16-22 | empty collections |
| SeatmapCache.Repository.Invalidate | services/venues/infrastructure/repositories/MongoSeatmapRepository.ts:436-438 | exactly the venue's cache entries go |
| SeatmapCache.Repository.Save | services/venues/infrastructure/repositories/MongoSeatmapRepository.ts:27-57 | version check, hash, insert, history entry, invalidation; the history lists exactly the stored versions |
| SeatmapCache.Repository.Publish | services/venues/infrastructure/repositories/MongoSeatmapRepository.ts:261-288 | unpublish all, publish one; a missing version fails only after the first of these and leaves the cache |
| SeatmapCache.Repository.GetMobile | services/venues/infrastructure/repositories/MongoSeatmapRepository.ts:173-211 | hit, miss, expiry and the failures of a miss |
| SeatmapCache.PublishKeepsDocuments | services/venues/infrastructure/repositories/MongoSeatmapRepository.ts:263-276 | publishing keeps every stored seatmap's content and integrity, keeps versions unique, and leaves other venues' documents alone |
| SeatmapCache.LatestIsLatest | services/venues/infrastructure/repositories/MongoSeatmapRepository.ts:70-78 | the latest seatmap is published and no published one of the venue comes after it |
| SeatmapCache.ViewShows | services/venues/infrastructure/repositories/MongoSeatmapRepository.ts:399-424 | a mobile view has every section in order with its seat count; seats and amenities appear exactly when the first entry for the zoom level shows them |
| SeatmapCache.PublishLeavesOne | services/venues/infrastructure/repositories/MongoSeatmapRepository.ts:261-288 | a successful publication leaves exactly that version of the venue published, and it is the latest |
| SeatmapCache.PublishCoherentIff | services/venues/infrastructure/repositories/MongoSeatmapRepository.ts:261-288 | exact condition: a publication keeps all cached views right unless it names no stored version while views of the venue are cached |
| SeatmapCache.SaveIsCoherent | services/venues/infrastructure/repositories/MongoSeatmapRepository.ts:27-57 | saving keeps all cached views right, even when the saved seatmap is already marked published |
| SeatmapCache.StepAgrees | services/venues/infrastructure/repositories/MongoSeatmapRepository.ts:173-211 | each operation answers as it would without a cache |
| SeatmapCache.CacheIsInvisible | services/venues/infrastructure/repositories/MongoSeatmapRepository.ts:173-211 | over any run whose publications name stored versions, whatever the clock, every answer equals the answer without a cache, and every cached view is right at the end |
| SeatmapCache.IntegrityIsKept | services/venues/infrastructure/repositories/MongoSeatmapRepository.ts:68-95 | after any run every stored seatmap passes its integrity check, so the corrupted-data branch is never taken |
| SeatmapAnswers.LatestIsExact | services/venues/infrastructure/repositories/MongoSeatmapRepository.ts:68-95 | getLatestSeatmap on any store: a published seatmap of the venue with no later one, if its hash is that of its content; nothing iff none is published; else corrupted data |
| SeatmapAnswers.SoundLatest | services/venues/infrastructure/repositories/MongoSeatmapRepository.ts:68-95 | while nothing is corrupted it never fails and answers a latest seatmap iff one is published |
| SeatmapAnswers.MobileIsExact | services/venues/infrastructure/repositories/MongoSeatmapRepository.ts:173-211 | getMobileSeatmap, hit or miss, while the cache is right: the view of a latest seatmap of the venue at the zoom level asked for, not found iff none is published; it is then cached, for an hour on a miss, and nothing else changes |
| SeatmapAnswers.EveryMobileAnswer | services/venues/infrastructure/repositories/MongoSeatmapRepository.ts:173-211 | the same after any run whose publications name stored versions |
| SeatmapAnswers.SaveIsExact | services/venues/infrastructure/repositories/MongoSeatmapRepository.ts:27-57 | saving is refused iff the venue has the version, and then changes nothing; else the seatmap is stored as given with the hash of its content, and exactly the venue's cached views go |
| SeatmapAnswers.PublishIsExact | services/venues/infrastructure/repositories/MongoSeatmapRepository.ts:261-288 | publishing succeeds iff the version is stored; either way the venue's other versions are unpublished, and only the two fields about publication change; the cached views go iff it succeeds |
| SeatmapAnswers.PublishedIsServed | services/venues/infrastructure/repositories/MongoSeatmapRepository.ts:261-288 | right after its publication a version is what getLatest answers and what getMobile shows, at every zoom level and instant |
| SeatmapAnswers.StaysServed | services/venues/infrastructure/repositories/MongoSeatmapRepository.ts:173-211 | it stays so through any run that publishes no other version of its venue and saves none marked published |
| SeatmapAnswers.StaleByAtMostAnHour | services/venues/infrastructure/repositories/MongoSeatmapRepository.ts:179-206 | in any run, publications of missing versions included, a view was right for its key at this or an earlier request at most an hour ago |

## Left out

- HTTP routing, headers, authentication, scopes, tracing, metrics, logging, mail: no state of interest.
- Payment provider calls and webhook signature checks: a payment intent is a value, a delivery is taken as authentic.
- Tenant isolation: row-level security; one tenant is modelled.
- Seat hold verification before an order (apps/api/src/v1/orders/routes.ts:120-150): it only refuses requests earlier.
- Insertion of tickets by POST /v1/tickets/issue: it has no guard and would break the bijection; only its token is modelled.
- Interleavings inside a redemption: it is one step. Two redemptions of one ticket interleaved statement by statement are not excluded by the code.
- Waiting: nothing is proved about how long a statement waits for a lock.
- Deadlocks between transactions: the database aborts one of them, which the model has as an abort.
- Expiry between SET NX and GET inside one `begin`, and between the GET and the DEL or SET inside one lock step: each is one step.
- SeatLocks.AcquireOne: one seat of a request, as services/inventory/infrastructure/lua/acquire_seat_locks.lua treats it; the script's result lists, its session ids and the in-memory test client are not modelled. The stored record has no seat id, so neither has an extended lock.
- The per-request identity keys of the limiters and idempotency stores: a key is a string.
- JSON text and UTF-8: event data, response bodies and token payloads are strings or byte sequences; a byte of an event stream is a character, and a block that is not valid UTF-8, which the client drops, does not occur.
- EventStream.IsBlank: only the white space that is one byte long; the longer ones would be trimmed too.
- Ed25519 itself: `sign` is a function, and checking a signature compares with it.
- The fallback of the mobile client to the first known key (ios/ThankfulApp/Core/Verifier.swift:92) and its key refresh timer.
- Key ring persistence and the JWK export.
- Order of sections whose names look like integers, which JavaScript moves to the front: sections come in order of first appearance.
- `String(seatIndex + 1)` and `String.fromCharCode`: seat numbers are naturals, row labels code units.
- Floating point: coordinates, scales and offsets are reals.
- SeatmapTransform.Compute: the list of warnings is not modelled.
- SeatmapTransform.DrawnX: the corner at which a seat's shape is drawn; its width and height, and scrolling, are not modelled.
- Slug.Slug: strings are sequences of Unicode scalar values, not of UTF-16 code units; lone surrogates, which the filter removes, do not occur.
- The stable JSON text that is hashed: the hash is of any sequence of code units.
- Failing database statements in the seatmap repository: a failure between insert and invalidation is not modelled.
- SeatmapCache.Latest: among equal publication dates the earliest document is taken, where MongoDB promises no order.
- Event snapshots, customisations, statistics and availability of seatmaps: not modelled; they read seatmaps and write collections nothing here reads.
- The mobile cache key, built from venue and zoom level, is modelled as the pair; the two determine each other.
- Identity, admin, catalogue and pricing use cases, dependency container, user interfaces: wrappers or finite tables.
