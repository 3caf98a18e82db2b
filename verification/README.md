# BondExchange durable coordination, modelled and proved

BondExchange lets authenticated principals publish MXN-priced bond offers, quote
USD submissions in MXN, and buy each offer once. Its Go service keeps no
coordination state of its own: everything that has to survive crashes, retries
and other server instances is decided by rows in PostgreSQL. This project models
that coordination in Dafny, one module family per component, and proves what the
components promise over every interleaving.

| modules | component |
|---|---|
| `LedgerTables`, `LedgerAttempts`, `LedgerTx`, `LedgerRuns`, `LedgerHistory`, `LedgerTheorems`, `LedgerQuotes`, `LedgerCalls`, `LedgerAnswers` | the append-only marketplace ledger: serializable attempts, idempotency claims, replay, quotes, discovery, and what callers are told |
| `RateTypes`, `RateRows` (with `Sql`), `RateLog`, `RateCache`, `RateTheorems`, `RateLeases`, `RateStory`, `RateStore` | the exchange-rate cache: three-valued readiness, nonce leases and backoff, coverage watermarks, the revision log, and the story of every state a store has been in |
| `Calendar`, `Planning`, `Batching`, `Normalizing`, `RateWork`, `RateProgress`, `RateService`, `RateResolve`, `RateQueries`, `RateWitnesses`, `SieDecoding` | the on-demand fetch workflow over that cache, from a caller's question to the provider's response |
| `Decimals`, `OfferIntake` | exact money arithmetic and the pricing of USD submissions |
| `Delivery`, `DeliveryStore`, `DeliveryStory`, `Drain`, `RetryDelay` | delivery of integration events with leases, crashes and a cursor-driven drain |
| `Admission` | the fixed-window request limiter |
| `JsonGate` | the duplicate-key-rejecting JSON validator |
| `Base`, `Ordering` | shared types, sorting and string order |

## How the model is built

A transaction of the ledger is not one step. It begins with a snapshot, executes
over that snapshot into private writes, and later commits or aborts; a commit
that would violate a primary or unique key is an abort and leaves nothing. Runs
interleave any number of transactions with grants, revocations, suspensions,
provisioning and time. `LedgerTx` writes the same attempts statement by
statement and is proved to stage exactly what the run model says.

The rate cache is a state machine whose steps are the store's transactions;
`RateStore` performs them with per-unit loops over mutable rows and is proved to
take exactly those steps, each of which it adds to its ghost story. The workflow
on top (`RateService`, `RateResolve`, `RateQueries`) runs against that store while
other instances execute arbitrary transactions between any two of its
transactions: between the reads of single states and observations, between the
claim and the read of the provider's block, between a fetch and its completion,
between the block and the releases, between one release and the next, and before
the final read. A store call may fail before it takes effect or, its
acknowledgement being lost, after.

`Delivery` gives the runs of one event for one destination; `DeliveryStore` holds
all rows and records its steps; `DeliveryStory` shows that each of its rows lives
such a run. It is drained by `Drain`, which works both alone and among other
dispatchers. `Drain` and the rate workflow carry a
`patience` bound that stands for the caller's context ending; it may be any number.
A rate store may be `quiet`: then nobody else uses it and its statements do not
fail, which is what the statements about progress assume.

Assumptions:

- PostgreSQL gives snapshot reads, enforces primary and unique keys, and makes an
  aborted transaction invisible; append-only triggers hold. Serializable
  isolation is not needed beyond that: an insert that conflicts with a row the
  snapshot does not show is a commit that fails.
- Request digests and lease nonces are abstract values, and a nonce is new when
  drawn. Generated uuids are new when a commit succeeds.
- The database clock does not go backwards; publishers and the database agree on
  elapsed time.
- The rate source is a fixed function of series and day.
- A work key is the tuple its text is formatted from. Terms, submissions and
  results are keyed by the column their schema declares unique and not null.
- Decimals in the rate log carry no trailing zeros, so that SQL's numeric equality
  is equality of values.

## What the proofs found

- `scanConversionQuote` reads the *rate* back with the price parser. In every run a
  committed quote is answered, by the call that committed it and by every retry,
  if and only if its rate fits a price; otherwise the ledger records a success that
  nobody can read (`LedgerQuotes.QuoteReadableExactly`). A rate with five
  fractional digits does not fit, and a run commits a quote at such a rate
  (`LedgerQuotes.UnreadableQuoteCommits`).
- A month completed as permanent loses its freshness deadline. A unit of the same
  month that is not permanent, planned by an instance whose clock still shows that
  month, then reads neither ready nor claimable
  (`RateRows.ReopenedMonthIsStuck`), and this lasts through every continuation in
  which nobody forces a claim of the month; a forced claim of the free row revives
  it (`RateTheorems.ReopenedMonthStaysStuck`). Off that case readiness and
  staleness are exact complements (`RateRows.ReadyComplementsStale`,
  `RateTheorems.NeverStuck`).
- A minute keeps its allowance of admitted requests exactly when no more than the
  allowance was requested in it or its requests form a single run of stamps
  (`Admission.AllowanceKeptExactly`). One request stamped in an older minute
  splits the run and lets the minute admit twice its allowance
  (`Admission.LateStampResets`).
- A publish window can be overlapped by a later claimant's exactly when it closes
  after its lease has ended (`Delivery.OverlapExactly`), and there is a run in
  which it is (`Delivery.LateClaimantIsOverlapped`). Starting within the
  five-second margin and honouring the deadline keeps it inside the lease.
- When `Latest` cannot resolve its unit it reads the stored rate first and the
  unit's state afterwards, so that a rate can be returned as not stale although a
  newer one was fetched in between (`RateWitnesses.FreshMarkCanLag`). It is up to
  date in the ready state exactly when nothing newer was imported between the two
  reads (`RateQueries.FallbackRateIsUpToDateExactly`); when the unit was resolved it
  always is (`RateQueries.ResolvedRateIsUpToDate`). The same holds of quotes priced
  from such rates (`OfferIntake.FallbackQuoteIsUpToDateExactly`,
  `OfferIntake.ResolvedQuoteIsUpToDate`, `RateWitnesses.LaggingQuoteCanBeDrafted`).
- A forced refresh counts any completion newer than its baseline, also one by an
  instance whose day is still the day before, which leaves today out
  (`RateWitnesses.ShortFetchMissesToday`). Its answer is exact through today if and
  only if every requested day the provider has was logged before the call or
  imported during it (`RateQueries.RevalidateRange`); for that it suffices that each
  month was covered already or some completion reached its last day, which is
  exactly when the months are covered (`RateQueries.CoveredWhenReached`).

## Model

| member | source | states |
|---|---|---|
| LedgerTheorems.SalesAreExclusiveAndAuthorized | application/internal/postgres/store.go:18-47 | over every run, an offer has at most one purchase; each purchase of the run is priced in MXN, is not a self-trade, and was made by a committed transaction whose buyer held the buy permission in that transaction's own snapshot, a state the database really was in |
| LedgerTheorems.SnapshotsAreReal | application/internal/postgres/store.go:478-509 | every snapshot of an open or committed transaction is the database after some prefix of the run |
| LedgerTheorems.LedgerMatchesFacts | application/internal/postgres/store.go:186-260 | over every run, claims and results are one to one; each purchase, offer and quote is the resource of exactly one recorded success by its own principal, and conversely; each offer has terms and a submission; events are exactly one per offer and purchase |
| LedgerTheorems.AbortsLeaveNothing | application/internal/postgres/store.go:690-705 | the tables are the older facts plus the writes of the committed transactions in commit order, and a transaction that never commits is invisible: the run without it ends in the same tables, clock and history |
| LedgerTheorems.QuotesAreSingleUse | application/internal/postgres/offer_intake.go:170-289 | over every run, a quote backs at most one submission; a USD offer has its quote's seller, bond, submitted amount and canonical price and was accepted before expiry; an MXN offer's terms equal its submission and carry no quote |
| LedgerTheorems.RetriesRepeatTheOutcome | application/internal/postgres/store.go:598-637 | once a scope has committed an outcome, in every later state a retry stages nothing and is answered with the original reply for the original digest and with a conflict for any other |
| LedgerTheorems.OneCommitPerScope | application/internal/postgres/store.go:511-539 | among racing attempts of one idempotency scope at most one transaction ever commits |
| LedgerTheorems.DiscoveryAgreesWithBuying | application/internal/postgres/store.go:113-130 | in every reachable state an offer is listed for a principal exactly when a fresh authorized buy of it would be staged and free to commit; a buy is recorded as a self-trade exactly when only the seller test blocked it; and any other is recorded as, and answered with, an unavailable offer |
| LedgerTheorems.ActiveSeriesExact | application/internal/postgres/store.go:132-143 | the series answer is sorted, has no repetition, and names exactly the series with something listed |
| LedgerHistory.RunKeepsAll | application/internal/postgres/store.go:296-387 | every reachable state satisfies the ledger invariant, and its tables and committed replies match the history of commits |
| LedgerHistory.CommitAnswersAsReplayed | application/internal/postgres/store.go:557-596 | what a committing call answers is what the ledger replays for it from then on; what that shows of the tables is `LedgerAnswers.RepliesShowTheTables` |
| LedgerHistory.ReplayStable | application/internal/postgres/store.go:598-637 | the answer to a claimed scope is the same in every later state, including a purchase found again by its offer |
| LedgerRuns.StagedIsSound | db/README.md:136-149 | positive reads of a snapshot still hold on the database the writes land on, because tables only grow |
| LedgerRuns.LandsOneSuccess | db/README.md:224-231 | negative reads are protected by unique keys: a second success for one resource cannot commit |
| LedgerAttempts.RejectionCodesRoundTrip | application/internal/postgres/store.go:639-675 | every error recorded durably is replayed as itself, and the two that this service records nowhere have their documented texts |
| LedgerTx.Tx.ClaimOperation | application/internal/postgres/store.go:511-539 | inserts the claim unless the snapshot shows the scope taken, in which case nothing is inserted |
| LedgerTx.Tx.BuyOnce | application/internal/postgres/store.go:296-387 | the statements of a buy stage exactly the attempt of the run model, whose outcome `LedgerAnswers.BuyOutcomeExactly` gives in columns, or leave the transaction empty |
| LedgerTx.Tx.CreateSaleOfferOnce | application/internal/postgres/store.go:186-260 | the same for the MXN-only creation; a foreign currency never succeeds |
| LedgerTx.Tx.CreateConversionQuote | application/internal/postgres/offer_intake.go:91-168 | the same for quote creation, an unknown bond being recorded and a missing rate not |
| LedgerTx.Tx.CreateSaleOfferFromSubmission | application/internal/postgres/offer_intake.go:170-289 | the same for creation from a submission, the quote being checked in the snapshot |
| LedgerTheorems.CommitsClaimApart | application/internal/postgres/store.go:511-539 | no two commits of a run share a claim |
| LedgerQuotes.QuoteReadableExactly | application/internal/postgres/offer_intake.go:295-325 | in every continuation a committed quote is a recorded success, and its reply and every replay are the quote if and only if its rate fits a price, and an invalid price otherwise |
| LedgerQuotes.UnreadableQuoteCommits | application/internal/postgres/offer_intake.go:160-166 | a run from an initial state commits a priced quote as a success and answers it with an invalid price |
| LedgerTx.RetryTransaction | application/internal/postgres/store.go:690-725 | the caller gets the first attempt that is not retryable, and no attempt is made after it, after a wait that the context cuts short, or after the eighth; the waits add up to the doubling delays, at most 191 milliseconds |
| LedgerCalls.Call | application/internal/postgres/store.go:690-705 | with attempts that are transactions of a ledger run, a caller that is answered gets the reply of the one commit of its scope, or a conflict if its digest differs, or a refusal by an attempt that recorded nothing |
| LedgerCalls.ReplayedIsAnswered | application/internal/postgres/store.go:557-637 | an attempt that finds its scope taken is answered by the one commit that took it |
| LedgerCalls.AtMostOneLands | application/internal/postgres/store.go:511-539 | the attempts of one mutation land at most one commit |
| LedgerAnswers.PermittedExactly | application/internal/postgres/store.go:478-509 | a principal is authorized exactly when a role grant of his and a permission grant to that role stand unrevoked and every suspension of his has been lifted |
| LedgerAnswers.EveryCommitWasEntitled | application/internal/postgres/store.go:478-509 | every buy, creation and quote committed in a run was made by a principal entitled, in the commit's own snapshot, to that very kind of request |
| LedgerAnswers.SuspendedIsDenied | application/internal/postgres/store.go:478-509 | in every continuation in which a suspension has not been lifted, whatever the principal attempts is denied |
| LedgerAnswers.UngrantedIsDenied | application/internal/postgres/store.go:478-509 | without an unrevoked chain of grants of the permission that kind of request needs, the attempt is denied |
| LedgerAnswers.RepeatsExactly | application/internal/postgres/store.go:511-539 | in every reachable state an entitled attempt counts as a repeat exactly when a commit of the run had its principal, client, kind of request and nonce |
| LedgerAnswers.BuyOutcomeExactly | application/internal/postgres/store.go:349-387 | in every reachable state a fresh, entitled buy is staged as a sale exactly when the offer is unsold and another's, as a self-trade exactly when it is unsold and the caller's own, and as unavailable otherwise |
| LedgerAnswers.ListingExactly | application/internal/postgres/store.go:113-130 | an offer is listed for a principal under a series exactly when it is unsold, another's and of that series |
| LedgerAnswers.SubmissionOutcomeExactly | application/internal/postgres/offer_intake.go:170-289 | in every reachable state a fresh, entitled submission of a positive amount is staged as a publication, free to commit, exactly when the bond is listed and it is MXN without a quote or USD with its principal's own unexpired, unused quote of that bond and amount; it is then published at those terms |
| LedgerAnswers.RepliesShowTheTables | application/internal/postgres/store.go:557-596 | for every commit and in every continuation, a purchase reply shows the purchase of the offer asked for, its buyer and time, and that offer's own key, seller, bond series and canonical price; a creation reply shows the same of the offer published; a committed quote row is the draft; and anything else was a refusal |
| LedgerAnswers.RefusalsAreExplained | application/internal/postgres/store.go:639-675 | every committed refusal, and every replay of it, names the reason its snapshot gives - unsold and the caller's own, not available, quote not the caller's open one, or bond not listed - and stands in the results table under that reason's text |
| RateRows.ReadyComplementsStale | application/internal/postgres/exchange_rates.go:23-35 | under three-valued logic a row is never ready and stale, and is neither exactly when its freshness deadline is missing |
| RateRows.ReopenedMonthIsStuck | application/internal/postgres/exchange_rates.go:90-113 | a month closed as permanent and asked for as non-permanent is neither ready nor claimable without force at any later time |
| RateLeases.ReadyExactly | application/internal/postgres/exchange_rates.go:23-35 | the three-valued readiness column holds exactly when, with nothing unknown, the latest observation is fresh or the month is covered and permanent or fresh |
| RateLeases.ClaimableExactly | application/internal/postgres/exchange_rates.go:91-113 | the claiming update matches exactly a row of the same series and kind, under no unexpired lease, past its next attempt, and forced or stale |
| RateTheorems.ReopenedMonthStaysStuck | application/internal/postgres/exchange_rates.go:90-113 | it stays so through every continuation in which nobody forces a claim of the month or asks beyond it, and can be claimed exactly by force while free |
| RateTheorems.NeverStuck | application/internal/postgres/exchange_rates.go:219-246 | on every reachable row, for a unit whose permanence has not reverted, ready is exactly not stale, so a free unit is ready or claimable |
| RateTheorems.FormerHolderIsFenced | application/internal/postgres/exchange_rates.go:155-166 | a nonce that does not hold a row never holds it again, and its completions and failures there change nothing, in every continuation |
| RateTheorems.TakeoverFences | application/internal/postgres/exchange_rates.go:90-137 | a granted claim takes the row from its former holder |
| RateLeases.LeaseIsExclusive | application/internal/postgres/exchange_rates.go:91-113 | a row leased to a nonce keeps that nonce and lease end through every continuation that stays before the lease end and in which the holder neither completes nor releases it, and meanwhile no claim by anybody, forced or not, is granted a unit of it |
| RateLeases.GrantedUnitIsHeld | application/internal/postgres/exchange_rates.go:91-113 | a unit returned by a claim is so held for the whole lease that was asked for |
| RateLeases.BackoffHolds | application/internal/postgres/exchange_rates.go:264-279 | a released row does not change, and no claim is granted a unit of it, before its next attempt is due |
| RateLeases.ReleasedUnitWaits | application/internal/postgres/exchange_rates.go:264-279 | a unit released with a delay is granted to nobody before the delay has passed, and to a forced claim at any time after it |
| RateLeases.CompletedUnitIsFree | application/internal/postgres/exchange_rates.go:228-250 | a completed unit is free at once: a forced claim of it is granted |
| RateLeases.NewWorkIsGranted | application/internal/postgres/exchange_rates.go:63-89 | work without a row gets one exactly when a claim names it, and that claim is granted a unit of it, forced or not |
| RateTheorems.FailReleasesOnlyItsOwn | application/internal/postgres/exchange_rates.go:264-279 | a failure releases at most the row that still carries its nonce |
| RateTheorems.RunIsLater | db/README.md:267-280 | over every run nothing logged, covered or fetched is lost, drawn nonces gain no row, and completion times change only to those of newly committed fetches |
| RateTheorems.SeenReadyAgrees | db/README.md:282-288 | once a month has been covered through a day, the log agrees with the provider on it in every later state |
| RateTheorems.ReadyLatestIsFresh | application/internal/postgres/exchange_rates.go:23-35 | a latest unit that reads ready has a committed fetch within the freshness period, and an observation |
| RateTheorems.RunLogIsDestuttered | application/internal/postgres/exchange_rates.go:190-218 | for every event sequence, whatever the provider answers, the log of each coordinate is the imports committed by the run without immediate repetitions, and its current value is the last one imported |
| RateTheorems.RunRecordsImports | application/internal/postgres/exchange_rates.go:190-218 | the log after a run is the log before it with the imports its completions committed, recorded in commit order |
| RateTheorems.LoggedWasAskedFor | application/internal/postgres/exchange_rates.go:186-218 | whatever the provider answers, every observation a run logs is positive, dated, of a series of the completion that brought it, and within the period of its request |
| RateLog.RecordAllConcat | application/internal/postgres/exchange_rates.go:202-214 | importing in two transactions is importing in one |
| RateLog.LogIsDestutteredImports | db/README.md:273-280 | the log of an import list is its stutter-free compression per coordinate, returns to an older value included |
| RateLog.LogOnlyGrows | db/README.md:273-280 | history is only extended |
| RateCache.RunKeepsInv | application/internal/postgres/exchange_rates.go:139-255 | in every reachable state every watermark is backed by a log that equals the provider from the month's start through it |
| RateStore.Store.Claim | application/internal/postgres/exchange_rates.go:54-137 | the loop inserts, leases and returns exactly what the cache model's claim does, row by row in order; what that grants and for how long is `RateLeases.GrantedUnitIsHeld` and `RateLeases.LeaseIsExclusive` |
| RateStore.Store.Complete | application/internal/postgres/exchange_rates.go:139-255 | succeeds exactly when every lease is held, no unit repeats and every observation can be stored, then takes the model's step; otherwise changes nothing |
| RateStore.Store.ImportObservations | application/internal/postgres/exchange_rates.go:186-218 | succeeds exactly when all observations are requested, positive, dated and in range, and then appends only what differs from the current revision |
| RateStore.Store.FailUnit | application/internal/postgres/exchange_rates.go:264-279 | one release takes the model's step and succeeds exactly when the row still carries the nonce |
| RateService.Fail | application/internal/postgres/exchange_rates.go:257-281 | amid interference between any two releases, the releases under the nonce are those of the units in order, up to the first lost lease or failing statement; none of the units tried is still held under it, and a lost lease is one the last release no longer found |
| RateStore.Store.BlockProviderUntil | application/internal/postgres/exchange_rates.go:394-402 | the block only moves later |
| RateStore.Store.RangeObservations | application/internal/postgres/exchange_rates.go:306-344 | returns the current rows of the series and days, sorted by series identifier and day |
| RateQueries.RangeRowsInOrder | application/internal/postgres/exchange_rates.go:330-331 | for series in identifier order the rows already stand in that order |
| RateStore.Store.NewestObservation | application/internal/postgres/exchange_rates.go:289-301 | returns the newest observation of a series under its current value, and nothing exactly when there is none |
| Calendar.MonthFollows | application/internal/exchangerates/service.go:174-175 | months tile the day line, leap Februaries included |
| Calendar.FourCenturies | application/internal/exchangerates/service.go:174-175 | four hundred years have 146097 days |
| Calendar.UnixEpoch | application/internal/exchangerates/service.go:174-175 | 1 January 1970 is day 719162 after 1 January of year 1 |
| Calendar.MarchOfLeapCentury | application/internal/exchangerates/service.go:174-175 | 1 March 2000, the day after a leap century's 29 February, is day 730179 |
| Calendar.LeapFebruaries | application/internal/exchangerates/service.go:174-175 | 2000 and 2024 are leap years; 1900 and 2023 are not |
| Planning.RangeUnits | application/internal/exchangerates/service.go:168-196 | the month and series loops produce the plan |
| Planning.PlanShape | application/internal/exchangerates/service.go:183-193 | every unit of a plan is one month of a requested series, cut at today, permanent exactly when the month is over |
| Planning.RangePlanIsExact | application/internal/exchangerates/service.go:168-196 | every day of the range not after today is fetched by exactly one unit of each series |
| Batching.MakeBatches | application/internal/exchangerates/service.go:416-440 | the batches permute the units into single-period batches of at most twenty, and no such packing has fewer |
| Batching.CutIsMinimal | application/internal/exchangerates/service.go:430-438 | greedy cutting of the sorted units uses the minimum number of batches |
| Batching.CheckRequest | application/internal/sie/client.go:143-178 | accepts exactly the requests that are non-empty, small, valid, free of repetition and in date order |
| Batching.RequestsPass | application/internal/exchangerates/service.go:446-453 | every request built from planned work passes those checks, but for a month whose first or last day is the zero time |
| Batching.RequestsAskForTheirUnits | application/internal/exchangerates/service.go:446-453 | the request of a batch names each of its units by series and asks for exactly the days that unit is to fetch |
| Normalizing.NormalizeSeries | application/internal/exchangerates/model.go:106-126 | succeeds exactly on valid, consistent, non-empty input, and then lists each requested series once in identifier order |
| RateService.FetchClaimed | application/internal/exchangerates/service.go:291-351 | keeps the cache invariant amid interference; success means every unit was fetched during the call; after success or a provider failure the nonce holds no unit; while the provider is blocked this call completes nothing, and a rate limit blocks the provider; units released after a provider failure wait until the provider's own time if that is later than now, and for the retry period otherwise, and after success none was released; undisturbed, with a provider that answers and has what is asked for, it succeeds and leaves every unit it holds ready |
| RateService.HeedProvider | application/internal/exchangerates/service.go:328-345 | a rate limit moves the block to the time it names or leaves a later one, any other failure leaves it, and the delay is as just said |
| RateProgress.AllGranted | application/internal/postgres/exchange_rates.go:54-137 | a claim of distinct work, each without a row or claimable, is granted in full and touches no other row |
| RateProgress.CompletionRenews | application/internal/postgres/exchange_rates.go:219-250 | a completion leaves each of its units completed now and ready, and other rows as they were |
| RateProgress.HolderCompletes | application/internal/postgres/exchange_rates.go:139-218 | an honest response of a proper provider that keeps to its request can be completed by whoever holds the units |
| RateService.RequireLatest | application/internal/exchangerates/service.go:455-466 | succeeds exactly when every requested series has an observation |
| RateService.OthersRun | application/internal/postgres/exchange_rates.go:54-281 | any transactions of other instances keep the invariant, lose nothing, never shorten a block and never act under a nonce of this instance |
| RateResolve.States | application/internal/postgres/exchange_rates.go:15-52 | each state read is the unit's state at some moment of the call, and its consequences still hold at the end |
| RateResolve.PendingUnits | application/internal/exchangerates/service.go:386-394 | keeps exactly the units that are not ready, in order |
| RateResolve.Resolve | application/internal/exchangerates/service.go:212-246 | success means every unit was ready at some moment of the call: every month unit is covered through its last day and every latest unit was fresh; a cold-fetch answer occurs only for latest units, and only when an unforced claim of some of them returned nothing; undisturbed, units that are ready cost no claim and no fetch, and units that are ready or may be claimed are brought up to date in two rounds |
| RateResolve.ResolveForced | application/internal/exchangerates/service.go:248-289 | success means every unit was completed by a step of the story during the call, and so has a provider fetch committed since it began; any failure but the store's comes after a forced claim of some of the units; undisturbed, units free to be forced are completed in two rounds |
| RateStory.CoveredExactly | application/internal/postgres/exchange_rates.go:228-246 | between two moments a month becomes covered through a day exactly when some completion reached that day |
| RateQueries.RangeRefinesProvider | application/internal/exchangerates/service.go:124-144 | once every planned month is covered, the stored rows through today are exactly the provider's, in the same order |
| RateQueries.Range | application/internal/exchangerates/service.go:124-144 | a successful answer is, through today, exactly what the provider would return for the requested series and days, and every later row is the provider's too; undisturbed, a covered range is answered without a claim or fetch, and one whose months are ready or may be claimed is answered after fetching them |
| RateQueries.RevalidateRange | application/internal/exchangerates/service.go:146-166 | on success every planned month was completed by a fetch committed during the call and every row is the provider's; the answer is exact through today if and only if every requested day the provider has was logged before or imported during the call; it is exact whenever each month was covered before or reached by some completion during the call |
| RateQueries.ExactWhenLogged | application/internal/postgres/exchange_rates.go:321-331 | over a log that holds only provider values the stored rows are the provider's if and only if every day the provider has is logged |
| RateQueries.AllLoggedWhenKnown | application/internal/postgres/exchange_rates.go:190-218 | a day is logged exactly when it was at some moment or has been imported by a completion since |
| RateQueries.CoveredWhenReached | application/internal/exchangerates/service.go:254-266 | the planned months are covered exactly when each was at the start or was reached since |
| RateWitnesses.ShortFetchMissesToday | application/internal/exchangerates/service.go:261-263 | a legal run in which a newer completion that stops short leaves out a day the provider holds |
| RateQueries.LatestObservations | application/internal/postgres/exchange_rates.go:283-304 | each returned observation is the newest of its series, under its current value, at some moment of the call, and a series without one had none at some moment; with every series observed there is one per series in order |
| RateQueries.Latest | application/internal/exchangerates/service.go:85-122 | a successful answer has exactly one observation per distinct series, the newest at some moment of the call; it is marked stale exactly when its unit was not ready at another moment, at or before the first if the call resolved and at or after it otherwise; one not marked stale had a committed fetch within the freshness period; undisturbed, ready series are answered without a claim or fetch, and series that are ready or may be claimed are answered as resolved |
| RateQueries.ResolvedRateIsUpToDate | application/internal/exchangerates/service.go:95-97 | a rate of a resolved call is dated no earlier than anything stored when its unit was ready |
| RateQueries.FallbackRateIsUpToDateExactly | application/internal/exchangerates/service.go:99-112 | a rate of a call that fell back is so exactly when nothing newer was imported between the read of the rate and that of its state |
| RateWitnesses.FreshMarkCanLag | application/internal/exchangerates/service.go:99-112 | the story of a call, reached by a legal run, that admits as an answer a rate not marked stale and older than what is stored when its unit is ready |
| RateWitnesses.LaggingQuoteCanBeDrafted | application/internal/offerintake/service.go:90-117 | a quote is drafted from such a rate |
| SieDecoding.DecodeResponse | application/internal/sie/client.go:213-250 | accepts exactly the responses with every requested series once and no other, no error, positive dated values and no repeated day, and returns all their rows in order |
| SieDecoding.FaithfulResponseCompletes | application/internal/sie/client.go:213-266 | a faithful response to a batch, range or latest, is decoded, is an honest answer, and can be completed exactly when the leases are held |
| Decimals.ParsePriceExact | application/internal/exchange/model.go:73-82 | a decimal is a price exactly when it equals a positive scale-4 amount within the bound |
| Decimals.ConversionIsHalfEven | application/internal/offerintake/service.go:105 | the MXN price is within half a unit of the exact product, ties to even |
| Decimals.HalfEvenUnique | application/internal/offerintake/service.go:105 | only one amount is |
| Decimals.ConversionMonotone | application/internal/offerintake/service.go:105 | a dearer submission never converts to a cheaper price |
| Decimals.QuotedPriceExact | application/internal/offerintake/service.go:105-108 | the quote is priced exactly when the rounded value is positive and at most 9999999999.9999 |
| Decimals.TinyRateRefused | application/internal/offerintake/service.go:105-108 | a positive rate can round a valid price to nothing, and the quote is refused |
| Decimals.RateReadableExactly | application/internal/postgres/offer_intake.go:320 | any stored rate reads back exactly when it is positive, has no digit past the fourth decimal and is within the price bound |
| Decimals.FiveDigitRateUnreadable | application/internal/postgres/offer_intake.go:320-323 | a five-digit rate prices a quote and cannot be read back |
| OfferIntake.EarlyReplayAgrees | application/internal/postgres/offer_intake.go:14-72 | the replay before any rate is needed answers as the ledger's replay would, and is silent exactly when no claim of the scope has a recorded success |
| OfferIntake.EarlyReplayStands | application/internal/offerintake/service.go:86-89 | what the early replay answers is what the ledger answers in every later state |
| OfferIntake.DraftQuote | application/internal/offerintake/service.go:78-117 | a draft is priced from a FIX value of the provider that `Latest` answered as not stale - the newest at a moment of the call, its unit ready at a moment of the call and fetched within the freshness period - dated neither in the future nor over age; undisturbed and with FIX ready it is priced from what is stored last, and nothing is claimed or fetched |
| OfferIntake.ResolvedQuoteIsUpToDate | application/internal/offerintake/service.go:90-104 | a quote of a resolved call is priced from a rate no older than anything stored in a state of the call in which FIX was ready |
| OfferIntake.FallbackQuoteIsUpToDateExactly | application/internal/offerintake/service.go:90-104 | a quote of a call that fell back is so exactly when nothing newer was imported between the read of the rate and that of its state |
| OfferIntake.DraftExactlyWhen | application/internal/offerintake/service.go:94-137 | a quote is drafted exactly from one usable FIX rate that is fresh, dated neither in the future nor over age, and whose price is in bounds |
| OfferIntake.QuoteSaleOffer | application/internal/offerintake/service.go:58-117 | a quote attempt carries such a draft, priced from such a rate, stages exactly the ledger's attempt, and its row is priced from the rate it pins; a caller that holds no unrevoked grant or is suspended is refused before anything is read, whatever it committed earlier, and nothing is staged or fetched; any other replay is the ledger's own; anything else stages nothing |
| OfferIntake.StagedQuoteIsPriced | application/internal/offerintake/service.go:105-116 | the staged quote row belongs to the permitted caller and pins the logged observation it was priced from: its MXN amount is the positive, bounded half-even product with the value a reader finds in that row |
| OfferIntake.CommittedQuoteIsPriced | application/internal/postgres/offer_intake.go:117-140 | once committed, the quote is so priced in every later state of the ledger |
| OfferIntake.GatedSubmissionsArePriced | application/internal/offerintake/service.go:139-191 | a submission that passes the service's checks never faults in the ledger, in any reachable state |
| OfferIntake.GateExactly | application/internal/offerintake/service.go:139-191 | a submission passes exactly when its price denotes an amount and it is MXN without a quote or USD with one, and then as that very amount, series, currency and quote; each refusal has its exact condition, the price being looked at first |
| OfferIntake.PassedSubmissionIsPublished | application/internal/offerintake/service.go:139-191 | an offer committed from a submission that passed is, in every continuation, of its series and seller, at the amount its price denotes if that was MXN and at the canonical price of the quote named otherwise, and was answered so |
| Delivery.RunKeepsInv | application/internal/postgres/events.go:135-189 | in every run the row belongs to the last granted claimant or to nobody, and earlier claimants had finished or run out of lease |
| Delivery.AttemptsCountGrants | application/internal/postgres/events.go:135-155 | the attempt counter is the number of granted claims |
| Delivery.DeliveredWasPublished | application/internal/eventing/dispatcher.go:158-177 | delivered implies an earlier successful publish by the lease holder |
| Delivery.DeliveredIsAbsorbing | application/internal/postgres/events.go:147 | once delivered, the row never changes and no claim is granted |
| Delivery.FormerHolderIsFenced | application/internal/postgres/events.go:168-220 | a claimant that was overtaken, or whose lease was released, fails to mark and changes nothing |
| Delivery.FencedForever | application/internal/postgres/events.go:180-181 | a claimant that does not hold the row never holds it again |
| Delivery.ClaimedExactly | application/internal/postgres/events.go:141-155 | a claim is granted exactly on a row that is missing, or undelivered, unleased and either forced or past its next attempt; it leaves the nonce, the lease end and one more attempt |
| Delivery.FailedMarkWaits | application/internal/postgres/events.go:191-220 | after a failed mark an unforced claim is granted exactly when the delay has passed, and a forced one at once |
| Delivery.LeaseIsExclusive | application/internal/postgres/events.go:141-155 | until a lease ends and unless its holder marks, the row does not change and no claim is granted |
| Delivery.BackoffHolds | application/internal/postgres/events.go:141-155 | a released row does not change before its next attempt is due unless a claim is forced |
| Delivery.PublishWindowsDisjoint | application/internal/eventing/dispatcher.go:43-48 | publish windows of different claimants never overlap when the earlier one starts within the margin and honours its deadline |
| Delivery.OverlapExactly | application/internal/eventing/dispatcher.go:43-48 | for a claimant publishing within its lease, some continuation opens a later window before this one closes at a given time if and only if that time lies beyond the lease |
| Delivery.LateClaimantIsOverlapped | application/internal/postgres/events.go:146-150 | a run with two overlapping publish windows |
| DeliveryStory.StoreRowsLiveRuns | application/internal/postgres/events.go:126-220 | the row of any destination and event of a store is the row of a run of the one-row machine from its initial state, whatever steps the store took |
| DeliveryStory.StoreCountsGrants | application/internal/postgres/events.go:141-155 | in every store the attempt counter of a row is the number of its granted claims |
| DeliveryStory.StoreKeepsDelivered | application/internal/postgres/events.go:146-147 | in every store a delivered row never changes again |
| DeliveryStory.StoreFencesForever | application/internal/postgres/events.go:168-220 | in every store a nonce that does not hold a row and is not drawn again never holds it |
| DeliveryStore.Store.ClaimEvent | application/internal/postgres/events.go:126-160 | grants exactly an existing, available event, counting the attempt, and touches no other row |
| DeliveryStore.Store.MarkEventDelivered | application/internal/postgres/events.go:162-189 | succeeds exactly for the holder of an undelivered row |
| DeliveryStore.Store.MarkEventFailed | application/internal/postgres/events.go:191-220 | succeeds exactly for the holder, releasing the row until the delay has passed |
| DeliveryStore.Store.PendingEvents | application/internal/postgres/events.go:222-255 | the page is the first available events after the cursor, in order, with no gap |
| DeliveryStore.Store.CountPendingEvents | application/internal/postgres/events.go:257-267 | counts the undelivered events of a destination |
| Drain.PublishOne | application/internal/eventing/dispatcher.go:124-205 | reports delivered only for a row marked delivered after a successful publish, and may report a mark whose acknowledgement was lost as failed; undisturbed, it takes an available event, counts the attempt, ends with the row delivered exactly when the publisher succeeded and otherwise released for exactly the retry delay of that attempt, and changes no other row; every claim it makes is for the publish limit and the margin |
| Drain.SelectedDestinations | application/internal/eventing/dispatcher.go:246-263 | every registered destination once in name order, or exactly the registered one named |
| Drain.DrainDestination | application/internal/eventing/dispatcher.go:78-119 | the page loop advances its cursor strictly and ends; undisturbed, it tries every waiting event and conserves the undelivered count |
| Drain.PublishPending | application/internal/eventing/dispatcher.go:69-122 | always attempted = delivered + failed and no event is tried twice per destination; undisturbed, every undelivered unleased event is tried, delivered exactly when its publisher succeeds, and undelivered before = delivered + remaining |
| RetryDelay.RetryDelay | application/internal/eventing/dispatcher.go:216-239 | the hash loop and the clamps compute the jittered, capped delay |
| RetryDelay.DelayBounds | application/internal/eventing/dispatcher.go:233-238 | the delay lies between three quarters and five quarters of the doubled base and never exceeds five minutes |
| RetryDelay.DelayGrows | application/internal/eventing/dispatcher.go:216-239 | for one event the delay never shrinks with the attempt |
| RetryDelay.FnvVectors | application/internal/eventing/dispatcher.go:217-220 | the hash of the empty text, of "a" and of "fo" are the published FNV-1a values |
| RetryDelay.DelayExactly | application/internal/eventing/dispatcher.go:216-239 | the delay is the doubled seconds times 750 to 1250 thousandths, as the hash says, capped at five minutes |
| RetryDelay.LateDelays | application/internal/eventing/dispatcher.go:224-239 | from the tenth attempt on the delay is 300 seconds times those thousandths, so capped |
| Admission.RateLimits.AdmitRequest | application/internal/postgres/rate_limit.go:41-59 | takes the upsert's step on the principal's row and touches no other; the wait is the least number of whole seconds after which the next window has begun, at least one and at most sixty |
| Admission.EachRunAdmitsExactly | application/internal/postgres/rate_limit.go:12-31 | each maximal run of n requests stamped with one minute admits exactly min(n, 100), whatever the order of stamps |
| Admission.EveryMinuteAdmitsItsQuota | application/internal/postgres/rate_limit.go:12-31 | for every sequence of stamps a minute admits exactly the sum over its maximal runs of min(length, 100) |
| Admission.AllowanceKeptExactly | application/internal/postgres/rate_limit.go:12-31 | for every sequence of stamps a minute keeps its allowance exactly when no more than 100 were requested in it or its requests form one run |
| Admission.EachMinuteAdmitsExactly | application/internal/postgres/rate_limit.go:12-31 | with non-decreasing stamps each minute admits exactly min(n, 100) of its n requests |
| Admission.AnyMinuteLongSpanIsBounded | application/internal/postgres/rate_limit.go:12-31 | with non-decreasing stamps any sixty seconds admit at most 200 |
| Admission.RetryAfterBounds | application/internal/postgres/rate_limit.go:34-39 | waiting as advised reaches the next window and no later one, and one second less does not |
| Admission.LateStampResets | application/internal/postgres/rate_limit.go:20-26 | with one older stamp between two hundreds of requests the minute admits two hundred |
| JsonGate.AcceptsExactlyProperObjects | application/internal/httpapi/handler.go:307-378 | the accepted token streams are exactly the flattenings of one object with pairwise distinct keys at every depth |
| JsonGate.ValidateObject | application/internal/httpapi/handler.go:322-350 | terminates, accepts exactly when the members and closing brace can be consumed, and leaves the cursor right after them |
| JsonGate.ValidateValue | application/internal/httpapi/handler.go:352-378 | the same for one value |
| JsonGate.ValidateSingleObject | application/internal/httpapi/handler.go:307-320 | accepts exactly such an object with nothing after it |

## Left out

- OfferIntake.QuoteSaleOffer: a retry whose outcome was a recorded rejection is not replayed before rates are asked for, as in the service; stability of rejections is proved at the ledger.
- Drain.PublishPending: without the undisturbed hypothesis nothing is said about completeness, because a page on which every claim loses ends the drain; while others keep appending events its length is bounded only by the context.
- Liveness of the polling loops among other instances: that a call succeeds is proved for one left alone with a provider that answers; among others only what holds on return is.
- Loading and versioning of event envelopes, panics of publishers: a publish that fails in any way is one outcome.
- The request digests of mutations, the JWT checks and the resolution of principals: an authenticated principal and a digest are inputs.
- The HTTP exchange with SIE, its headers and the reading of text into dates and decimals: a response is a list of series with parsed or unparseable rows.
- The unit conversion of a lease or delay into whole microseconds, except for the retry delay of an event.
- Bond series, currency and uuid syntax: canonical values are taken as given, except for the series identifiers the provider client checks.
- Error classes, telemetry, import metadata and updated_at columns, which nothing reads back.
- PostgreSQL's serializable conflict detection, advisory locks and connection pool: assumed, as listed above.
- Streaming of active offers and its id order: the listing is a set.
