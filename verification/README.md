# Verified model of the Givernance server cores

A Dafny model of the parts of the repository where correctness depends on more than one function:

- **Keycloak admin client.** The circuit breaker, the retry loop and the token cache. `Breaker` holds the
  closure variables as a class whose methods update them in place. `AdminRequests` is the retry loop over
  that class. `ConcurrentRequests` is every interleaving of any number of requests, suspended at every
  await, under a clock that never goes back. `TokenCache` is the shared token request.
- **Payment references.** `Mod97` has the per-character loop, the expanded number it stands for and the
  number theory behind error detection; `References` has IBAN (ISO 13616) and SCOR (ISO 11649); `Qrr` has
  the recursive modulo-10 check of the SIX Implementation Guidelines QR-bill, Annex B.
- **Outbox, relay and worker.** `Outbox` is the whole pipeline as one transition system with crashes, failing
  calls, redelivery and eviction. `RelayTick` is the relay's tick over a mutable table and queue; it is tied
  to the system iteration by iteration. `Recovery` is what the relay can still reach from any state.
- **Idempotency keys.** `Idempotency` has the two hooks over a mutable store; `IdempotencyRuns` has every
  interleaving of requests with one key.
- **Custom fields.** `CustomValidator` and `CustomFieldHistory` cover validation and merge-patches over whole
  histories; `ImportHeaders`, `ImportCells`, `CellLists`, `Amounts` and `ExportRoundTrip` cover the file import
  and the way back from the export.
- **Calendar.** `Calendar` has the ECMAScript day arithmetic (section 21.4.1 of ECMA-262), the date check of
  custom fields, the month bounds of the dashboard and the printed ISO day.
- **Exchange rates.** `ExchangeRate` has the rates table, the cache with negative entries and the remote fetch.

`Wrappers`, `Text` and `Numerals` hold what the others share. Outside calls are parameters: a network call, a
store call or a queue call gets its outcome, and whether it took effect, as an argument, so every lemma
holds for every outcome. Clocks and random draws are arguments too. `dafny verify dfyconfig.toml` checks
everything.

## Where the code does not do what its comments say

- A 401 on the admin API is retried on every attempt left, not once (`AdminRequests.Post401IsRetriedEveryTime`).
- A failure threshold of zero or less acts as a threshold of one (`ConcurrentRequests.OpenIffEnoughFailures`,
  `ConcurrentRequests.ThresholdIsLiteralIffPositive`). With `maxAttempts` of zero or less a request sends
  nothing and still counts one failure (`ConcurrentRequests.NoAttemptsCountOneFailure`). Malformed JSON in a 200
  reply, and a 5xx of the token endpoint, count too (`ConcurrentRequests.UnparsedCountsOneFailure`).
- Two half-open probes can run at once, exactly if another request is in flight while the first runs, or the flag
  came down under it (`ConcurrentRequests.ProbesCanOverlapIff`). What holds always is one probe between two clearings of the flag.
- The 30 s margin of a token shrinks by what its answer took to arrive. A token can be given out after its end
  exactly if answers can take more than 30 s, or that delay plus one second exceeds the token's lifetime
  (`TokenCache.NeverServedDeadIff`).
- The SCOR generator never reaches its reserved-digits error, for any payload (`References.CheckIsNeverReserved`).
- A 409 reply leaves the cache key set on its request, so its own `onSend` deletes the sentinel of the request it
  collided with, and a third request runs the handler next to the first: the exclusion holds for two requests with
  a key and fails from three on (`IdempotencyRuns.NeverTwoHandlersIff`). A malformed entry lets the handler run
  without a fresh `SET NX` (`Idempotency.PreHandler`).
- A late replica can put `failed` over `completed`: a completed row stays completed exactly while no running tick
  holds it (`Outbox.StaysCompletedIffUnheld`). After eviction it can publish an event again: an event can be
  accepted once more exactly while its row is pending or some tick has yet to offer it
  (`Recovery.AcceptedMoreIffOfferable`), so the comment's exactly-once holds only while the job is retained. What
  saves receipts is the second deduplication, in a queue that removes nothing.
- The same theorem (`Outbox.ChildAcceptedAtMostOnce`) applies to `kc-sync-org-logo-<orgId>`: one logo sync per tenant
  is accepted ever, while the comment speaks of collapsing a flurry into one sync.
- The month bounds are off for the years 0 to 99, which `Date.UTC` moves to the 1900s
  (`Calendar.BoundsEncloseToday`, `Calendar.MonthsTile`).
- An amount converted from the fetched rate and again from the stored one can differ by two cents, below two million
  major units and with a positive stored rate: 199999999 cents at 164.500000425 (`ExchangeRate.BoundIsTight`).
  Within one cent they stay while `ExchangeRate.Drift` is at most one (`ExchangeRate.ConversionsAgree`).
- The stored blob can hold an empty string, if an active picklist option has the empty id
  (`CustomFieldHistory.EmptyIdIsStored`).
- Distinct keys are not enough for the template's headers to read back: two keys that differ only in case
  share an alias (`ImportHeaders.CaseVariantsMisroute`). With the keys that the API admits they are.
- An exported value does not always come back on import: negative numbers (but not amounts), texts and labels
  that start like a formula, and labels that another option claims first do not
  (`ExportRoundTrip.RoundTripIff`).

## Model

| member | source | states |
|---|---|---|
| `Breaker.CircuitBreaker.CurrentState` | packages/api/src/lib/keycloak-admin.ts:350-354 | the state is read off the timer and the clock, and reading changes nothing |
| `Breaker.CircuitBreaker.RecordSuccess` | packages/api/src/lib/keycloak-admin.ts:356-360 | a success resets all three variables |
| `Breaker.CircuitBreaker.RecordBreakerFailure` | packages/api/src/lib/keycloak-admin.ts:367-381 | the whole new state after a counted failure, with the two clock readings apart |
| `Breaker.CircuitBreaker.GuardCircuit` | packages/api/src/lib/keycloak-admin.ts:538-548 | who is let in, as what, and the new state; a refusal changes nothing |
| `Breaker.CircuitBreaker.HandleTerminalError` | packages/api/src/lib/keycloak-admin.ts:557-565 | the whole new state after a request gives up |
| `AdminRequests.RetryPolicy` | packages/api/src/lib/keycloak-admin.ts:439-458 | the retry tests, across token fetch, send and reply, amount to: 401 or 429 always, 5xx and network failures unless POST |
| `AdminRequests.OutcomeOnWire` | packages/api/src/lib/keycloak-admin.ts:460-505 | which attempts give a result and which failures count towards the breaker, in statuses and bodies: 5xx of either endpoint, the network, bodies that are no JSON |
| `AdminRequests.SendsSnoc` | packages/api/src/lib/keycloak-admin.ts:505-530 | an attempt sends exactly if it got its token |
| `AdminRequests.RetryLoop` | packages/api/src/lib/keycloak-admin.ts:572-598 | the loop performs exactly the complete trace that the policy allows, sleeps its backoffs in order, and leaves the breaker as this request and the others in between changed it |
| `AdminRequests.AdminRequest` | packages/api/src/lib/keycloak-admin.ts:567-599 | refused: nothing sent, nothing changed; admitted: trace, verdict, sleeps and final breaker state are determined |
| `AdminRequests.CompleteTraceIsUnique` | packages/api/src/lib/keycloak-admin.ts:575-593 | the conditions on the trace leave no choice, so the two methods above are fully specified |
| `AdminRequests.PostSendsEachTime` | packages/api/src/lib/keycloak-admin.ts:434-458 | a POST reaches the admin API in every attempt but possibly the last, and never more than `maxAttempts` times |
| `AdminRequests.Post401IsRetriedEveryTime` | packages/api/src/lib/keycloak-admin.ts:439-446 | answered by 401 each time, a request uses up all its attempts |
| `AdminRequests.BackoffBounds` | packages/api/src/lib/keycloak-admin.ts:550-555 | each backoff is within the hard cap and within the exponential one, for every jitter draw |
| `AdminRequests.SleepWithinHardCap` | packages/api/src/lib/keycloak-admin.ts:550-592 | total sleep is at most the number of sleeps times `maxBackoffMs` |
| `AdminRequests.SleepWithinExponentialCap` | packages/api/src/lib/keycloak-admin.ts:550-592 | total sleep is at most the initial backoff times 2^n - 1 |
| `ConcurrentRequests.RunKeepsInv` | packages/api/src/lib/keycloak-admin.ts:344-381 | the invariant over every interleaving from which the results below follow |
| `ConcurrentRequests.FlagMeansRunningProbe` | packages/api/src/lib/keycloak-admin.ts:538-565 | the half-open flag is up only in a half-open circuit and only while a probe runs |
| `ConcurrentRequests.NeverWedged` | packages/api/src/lib/keycloak-admin.ts:350-381 | with no probe running, entry is refused iff the open window still lasts |
| `ConcurrentRequests.ProbesAlternateWithClearings` | packages/api/src/lib/keycloak-admin.ts:538-565 | between two clearings of the flag at most one probe is admitted; the counts balance |
| `ConcurrentRequests.OpenIffEnoughFailures` | packages/api/src/lib/keycloak-admin.ts:356-381 | the timer is set iff the counted failures since the last success reach max(1, threshold) |
| `ConcurrentRequests.SettleOnWire` | packages/api/src/lib/keycloak-admin.ts:557-598 | for every kind of attempt: whether its request succeeds, fails or sleeps, and whether the count is reset, raised or kept |
| `ConcurrentRequests.CounterIsWireCount` | packages/api/src/lib/keycloak-admin.ts:356-381 | in every run the counter is the number of counting endings on the wire since the last success |
| `ConcurrentRequests.ThresholdArmsTimer` | packages/api/src/lib/keycloak-admin.ts:367-381 | the ending that makes this count reach the threshold opens the circuit at its own time |
| `ConcurrentRequests.RefusedWhileOpen` | packages/api/src/lib/keycloak-admin.ts:350-381 | after it, with no success since, every entry is refused until the window has passed |
| `ConcurrentRequests.ThresholdIsLiteralIffPositive` | packages/api/src/lib/keycloak-admin.ts:337-380 | the configured threshold is the literal one over all runs iff it is positive |
| `ConcurrentRequests.OtherStatusesLeaveTheCount` | packages/api/src/lib/keycloak-admin.ts:460-465 | a reply outside 2xx and 5xx neither counts, nor resets, nor moves the timer |
| `ConcurrentRequests.EnteredWhileOpenSendsNothing` | packages/api/src/lib/keycloak-admin.ts:538-548 | a request that enters while open is rejected, never sends, and changes nothing |
| `ConcurrentRequests.EveryRequestIsBounded` | packages/api/src/lib/keycloak-admin.ts:550-593 | policy, number of sends and both sleep caps hold for each request of each interleaving |
| `ConcurrentRequests.ProbesCanOverlapIff` | packages/api/src/lib/keycloak-admin.ts:367-381 | while a probe runs, some continuation has a second probe next to it iff the flag is down or any other request is in flight |
| `ConcurrentRequests.TwoProbesCanOverlap` | packages/api/src/lib/keycloak-admin.ts:367-376 | hence a run from the empty system with two probes at once |
| `ConcurrentRequests.NoAttemptsCountOneFailure` | packages/api/src/lib/keycloak-admin.ts:572-599 | with no attempt allowed an admitted request sends nothing and counts one failure |
| `ConcurrentRequests.UnparsedCountsOneFailure` | packages/api/src/lib/keycloak-admin.ts:448-465 | a good reply that is no JSON, or a token endpoint that answers 5xx or no JSON, ends the request and counts one failure |
| `TokenCache.RunKeepsInv` | packages/api/src/lib/keycloak-admin.ts:385-432 | the cache invariant over every interleaving of callers, answers, failures and rejections |
| `TokenCache.OneRequestAtATime` | packages/api/src/lib/keycloak-admin.ts:420-432 | at most one token request awaits an answer |
| `TokenCache.RequestsArePaidFor` | packages/api/src/lib/keycloak-admin.ts:420-477 | token requests are at most one more than failures, rejected tokens and different expired tokens together |
| `TokenCache.BoundIsAttained` | packages/api/src/lib/keycloak-admin.ts:420-477 | for all numbers of failures, rejections and expiries some run sends exactly as many requests as they allow |
| `TokenCache.GivenUpIsNotServedAgain` | packages/api/src/lib/keycloak-admin.ts:420-477 | a token found expired or rejected is not served from the cache again |
| `TokenCache.EveryCallHasOneOutcome` | packages/api/src/lib/keycloak-admin.ts:420-432 | at every moment of every run each call was served from the cache, was handed the shared token, failed with it, or waits: exactly one of these |
| `TokenCache.ServedTokensHaveMargin` | packages/api/src/lib/keycloak-admin.ts:407-424 | a cached token issued for 31 s or more is served with 30 s less the delay of its answer left; a shorter one at most a second after it arrived |
| `TokenCache.NeverServedDeadIff` | packages/api/src/lib/keycloak-admin.ts:407-432 | with a delay of up to d ms between issue and arrival, no run gives a token of lifetime l, cached or shared, out after its end iff d is at most 30 s and d + 1 s at most l |
| `Mod97.ComputeMod97` | packages/shared/src/validators/iban.ts:31-43 | the per-character loop computes the fully expanded decimal number modulo 97, or NaN |
| `Mod97.NumberIsReading` | packages/shared/src/validators/iban.ts:24-46 | the expanded number of a text is its reading off the alphabet 0-9, A-Z as the values 0 to 35, two places from ten on |
| `Mod97.EuclidFor97` | packages/shared/src/validators/iban.ts:24-30 | 97 is prime: it divides a product with a small factor only through the other factor |
| `Mod97.OrderOfTen` | packages/shared/src/validators/iban.ts:24-30 | 10^k leaves 1 modulo 97 iff 96 divides k |
| `Mod97.SubstitutionChangesResidue` | packages/shared/src/validators/iban.ts:31-43 | replacing a character by another of its class changes the residue, in a text of any length |
| `Mod97.SwapUnnoticedIff` | packages/shared/src/validators/iban.ts:31-43 | swapping two unequal characters of one class keeps the residue iff the digits between them are a multiple of 96 |
| `References.IsValidIban` | packages/shared/src/validators/iban.ts:52-58 | the validator accepts exactly the normalised texts of IBAN shape whose rotated number leaves 1 |
| `References.AcceptedCheckDigits` | packages/shared/src/validators/iban.ts:52-58 | for each country and account exactly those check numbers n are accepted for which account, country and n, read as one number, leave 1 modulo 97 |
| `References.IbansAreSpelt` | packages/shared/src/validators/iban.ts:52-58 | and nothing else is: two letters, two digits, one to thirty characters |
| `References.SpacesAndCaseDoNotMatter` | packages/shared/src/validators/iban.ts:20-23 | white space and the case of letters, anywhere in the input, change nothing |
| `References.SubstitutionMakesIbanInvalid` | packages/shared/src/validators/iban.ts:20-58 | every substitution within a class is caught, on raw input with spaces and lower case |
| `References.SwapMakesIbanInvalid` | packages/shared/src/validators/iban.ts:20-58 | every swap within a class is caught, also across the rotation point |
| `References.IsValidScor` | packages/shared/src/validators/iban.ts:187-194 | the validator accepts exactly the SCOR shapes with residue 1 and no reserved digits |
| `References.AcceptedScorDigits` | packages/shared/src/validators/iban.ts:187-194 | RF references are accepted exactly with a check number from 2 to 98 that makes the number 1 modulo 97 |
| `References.ScorsAreSpelt` | packages/shared/src/validators/iban.ts:187-194 | and nothing else is accepted |
| `References.ComputeScor` | packages/shared/src/validators/iban.ts:209-229 | the only error that can occur is the malformed payload |
| `References.CheckIsNeverReserved` | packages/shared/src/validators/iban.ts:222-227 | no payload yields reserved check digits |
| `References.SolutionsOfCongruence` | packages/shared/src/validators/iban.ts:216-222 | two digits solve the congruence iff they are the computed value or 97 away from it |
| `References.ReservedAreTheSecondSolutions` | packages/shared/src/validators/iban.ts:175-191 | among the solutions, the reserved set removes exactly those that the generator does not produce |
| `References.ExactlyOneScor` | packages/shared/src/validators/iban.ts:187-229 | for every payload exactly one pair of check digits is accepted, the generator's |
| `Qrr.ColumnIsModulo10` | packages/shared/src/validators/iban.ts:130-137 | the column that the laws below speak of is carry plus digit modulo 10 |
| `Qrr.TableIsNext` | packages/shared/src/validators/iban.ts:111-122 | the carry table is the first row at carry plus digit modulo 10 |
| `Qrr.IsValidQrr` | packages/shared/src/validators/iban.ts:126-141 | the loop accepts exactly the 27 digits whose last is the check digit of the rest |
| `Qrr.ComputeQrr` | packages/shared/src/validators/iban.ts:152-173 | the generator appends the check digit to exactly the 26-digit bodies |
| `Qrr.ValidIffComputed` | packages/shared/src/validators/iban.ts:126-173 | validator and generator are inverses |
| `Qrr.LeadingZerosDoNotMatter` | packages/shared/src/validators/iban.ts:117-140 | filling a reference with leading zeros keeps its check digit |
| `Qrr.SubstitutionDetected` | packages/shared/src/validators/iban.ts:126-141 | every single wrong digit is caught, the check digit included |
| `Qrr.AdjacentSwapUnnoticedIff` | packages/shared/src/validators/iban.ts:126-141 | an adjacent swap goes unnoticed iff the two columns at that carry are 4 and 7 |
| `Outbox.RunKeepsInv` | packages/relay/src/relay.ts:47-128 | the invariant over every run of replicas, workers and queues |
| `Outbox.ChildAcceptedAtMostOnce` | packages/worker/src/worker.ts:63-136 | a child queue without removal accepts each derived id at most once over every run |
| `Outbox.AtMostOneReceiptPerDonation` | packages/worker/src/worker.ts:330-347 | at most one receipt job per donation is accepted, and only for a stored event that routes to it |
| `Outbox.EventAcceptancesBalance` | packages/relay/src/relay.ts:69-100 | an event's acceptances equal its evictions, plus one while it is retained |
| `Outbox.CompletedWasPublished` | packages/relay/src/relay.ts:69-111 | a completed row had a job with its own id and content accepted |
| `Outbox.RowsLast` | packages/relay/src/relay.ts:102-123 | rows are never lost or rewritten and none returns to pending |
| `Outbox.SelectTakesFreeRows` | packages/relay/src/relay.ts:52-66 | a SELECT takes at most 100 pending, unlocked rows, and only for a replica that is through with its last batch |
| `Outbox.LostCallsLoseNothing` | packages/relay/src/relay.ts:69-125 | calls without effect, crashes and dying workers change no row and no queue, and the worker can be given any event again |
| `Outbox.StaysCompletedIffUnheld` | packages/relay/src/relay.ts:102-123 | from any state, a completed row stays completed in every continuation iff no running tick holds it |
| `Outbox.CompletedCanBecomeFailed` | packages/relay/src/relay.ts:112-124 | hence a run from the empty system in which `failed` overwrites `completed` |
| `Outbox.EvictedEventCanBeAcceptedAgain` | packages/relay/src/relay.ts:93-99 | a run from the empty system in which one event is accepted twice |
| `RelayTick.RelayPendingEvents` | packages/relay/src/relay.ts:47-128 | the tick leaves table, queue and count as the fold of its rows, for every pattern of failing calls |
| `RelayTick.RelayRowIsSystemSteps` | packages/relay/src/relay.ts:69-125 | one iteration is the replica's steps of the transition system |
| `RelayTick.TickIsRun` | packages/relay/src/relay.ts:47-128 | a whole tick, from its SELECT on, is a run of the system that ends with the tick's rows, queue and acceptances, for every pattern of failing calls |
| `RelayTick.TickTouchesOnlyItsBatch` | packages/relay/src/relay.ts:69-125 | whatever fails, only rows of the batch change and none to pending |
| `RelayTick.CompletedRowsAreRetained` | packages/relay/src/relay.ts:69-111 | every row the tick completed is in the queue |
| `RelayTick.FaultFreeTick` | packages/relay/src/relay.ts:52-127 | without faults it completes exactly the oldest min(100, n) of the n pending rows that nothing else locks |
| `RelayTick.Draining` | packages/relay/src/relay.ts:59-65 | k fault-free ticks leave max(0, n - 100k) rows pending |
| `Recovery.OldestBatchExists` | packages/relay/src/relay.ts:59-65 | the SELECT has an answer for every table and every set of locked rows: ordered, at most 100, none skipped older |
| `Recovery.CrashLosesNothing` | packages/relay/src/relay.ts:52-111 | a crash changes no row and no queue; from there the replica alone, selecting the oldest rows each time, reaches a table in which exactly the rows that were pending are completed, all of them published |
| `Recovery.PendingReachesChild` | packages/worker/src/worker.ts:297-347 | from any such state every pending row can be completed and the job its event routes to be in the child queue |
| `Recovery.AcceptedMoreIffOfferable` | packages/relay/src/relay.ts:59-100 | from any state, some continuation accepts a stored event once more iff its row is pending, however many rows are older, or a tick has yet to offer it |
| `Idempotency.PreHandler` | packages/api/src/plugins/idempotency.ts:197-257 | the reply, the store and the request's cache key for each state of the key and each role |
| `Idempotency.RoleCheckMirrorsGuard` | packages/api/src/plugins/idempotency.ts:114-119 | the plugin admits a role exactly if the route's own guard does |
| `Idempotency.RoutesMirrorTheirGuards` | packages/api/src/lib/guards.ts:88-127 | each of the four opted-in routes gives the plugin the minimum role of its guard |
| `Idempotency.GuardDecides` | packages/api/src/plugins/idempotency.ts:197-257 | a request replays, conflicts or runs its handler exactly if that guard admits the caller; else 403 and nothing changes |
| `Idempotency.OnSend` | packages/api/src/plugins/idempotency.ts:259-305 | what is stored or deleted after each reply |
| `Idempotency.ServeRequest` | packages/api/src/plugins/idempotency.ts:197-305 | both hooks around the handler, for a request that nothing overlaps |
| `Idempotency.SuccessIsReplayed` | packages/api/src/plugins/idempotency.ts:132-157 | after a 2xx no later request of the key runs its handler; each allowed one gets the same status, body and allow-listed headers |
| `Idempotency.FailuresAreRetried` | packages/api/src/plugins/idempotency.ts:263-271 | until a 2xx every allowed request runs its handler and gets its reply |
| `Idempotency.KeysAreDistinct` | packages/api/src/plugins/idempotency.ts:121-123 | cache keys of the opted-in routes never collide, whatever the client sends |
| `IdempotencyRuns.RefusedRequestIsServe` | packages/api/src/plugins/idempotency.ts:213-215 | the steps of a refused request that nothing overlaps end as the hooks do: 403, nothing changed |
| `IdempotencyRuns.NewRequestIsServe` | packages/api/src/plugins/idempotency.ts:217-305 | those of a request with a new key end as the hooks do: handler run, reply stored or key freed |
| `IdempotencyRuns.RepeatedRequestIsServe` | packages/api/src/plugins/idempotency.ts:234-257 | those of a request that finds the sentinel or a stored reply end as the hooks do |
| `IdempotencyRuns.MalformedRequestIsServe` | packages/api/src/plugins/idempotency.ts:132-157 | those of a request that finds text it cannot parse end as the hooks do |
| `IdempotencyRuns.FaultyCalls` | packages/api/src/plugins/idempotency.ts:197-305 | what each failing store call, and a process that stops, leaves in the entry and answers |
| `IdempotencyRuns.HandlerBound` | packages/api/src/plugins/idempotency.ts:197-305 | in every interleaving: handler runs are at most 1 + deletions by `onSend` + expiries + dropped malformed entries |
| `IdempotencyRuns.HandlerBoundForOwnWrites` | packages/api/src/plugins/idempotency.ts:197-305 | the last term vanishes if only the plugin writes the key |
| `IdempotencyRuns.HandlerBoundIsAttained` | packages/api/src/plugins/idempotency.ts:197-305 | for every number of deletions, expiries and malformed entries some run attains that bound |
| `IdempotencyRuns.NeverTwoHandlersIff` | packages/api/src/plugins/idempotency.ts:218-271 | without expiry and foreign writes, no run with at most n requests has two handlers at once iff n is at most 2 |
| `IdempotencyRuns.ConflictFreesTheKey` | packages/api/src/plugins/idempotency.ts:238-271 | a run in which a 409 deletes the sentinel of a running request |
| `IdempotencyRuns.TwoHandlersAtOnce` | packages/api/src/plugins/idempotency.ts:218-271 | a run with two handlers of one key at once and nothing expired |
| `Calendar.ClosedFormAgrees` | packages/web/src/lib/dashboard-period.ts:17-24 | the year starts defined year by year agree with ECMA-262's closed form |
| `Calendar.PartsOfGregorian` | packages/shared/src/custom-fields/validator.ts:71-74 | reading a Gregorian date's day back gives its parts |
| `Calendar.AcceptsExactlyRealDays` | packages/shared/src/custom-fields/validator.ts:64-75 | the check accepts exactly the texts YYYY-MM-DD naming a real day of the years 0100 to 9999 |
| `Calendar.ValidIffPrinted` | packages/shared/src/custom-fields/validator.ts:64-75 | hence the valid texts are the printed real days of those years |
| `Calendar.BoundsAreFirstAndLast` | packages/web/src/lib/dashboard-period.ts:17-24 | the bounds are the first and last day of the month that was asked for |
| `Calendar.BoundsExist` | packages/web/src/lib/dashboard-period.ts:17-24 | both exist for every day but those within a month of the ends of representable time |
| `Calendar.BoundsEncloseToday` | packages/web/src/lib/dashboard-period.ts:17-24 | they enclose today iff the year is not 0 to 99, and span the month's length |
| `Calendar.MonthsTile` | packages/web/src/lib/dashboard-period.ts:17-24 | the last day plus one is the next month's start, December included, except where the years 0 to 99 begin and end |
| `Calendar.IsoDayReadsBack` | packages/web/src/lib/dashboard-period.ts:27-29 | a printed day reads back as itself and passes the date check iff its year is 0100 to 9999 |
| `Calendar.OtherYearsArePrintedLong` | packages/web/src/lib/dashboard-period.ts:27-29 | other years print a sign, six digits and the month, and no day |
| `CustomValidator.ComputeMultiPicklist` | packages/shared/src/custom-fields/validator.ts:158-179 | the loop: error of the first bad item, else first occurrences in order |
| `CustomValidator.FixpointIffWellFormed` | packages/shared/src/custom-fields/validator.ts:91-198 | normalising leaves a value alone iff the value is well-formed for the definition |
| `CustomValidator.NormalizedIsWellFormed` | packages/shared/src/custom-fields/validator.ts:91-198 | every normalised value is well-formed, hence a fixpoint |
| `CustomValidator.RefusedIff` | packages/shared/src/custom-fields/validator.ts:91-198 | which values are refused with which code, for every kind; in a list the first bad item decides |
| `CustomValidator.ClearedIff` | packages/shared/src/custom-fields/validator.ts:91-198 | exactly blank texts and empty lists clear a key |
| `CustomValidator.AcceptedValue` | packages/shared/src/custom-fields/validator.ts:91-198 | accepted texts lose the white space at their ends, lists their later repetitions, other values nothing |
| `CustomValidator.ApplyCustomMergePatch` | packages/shared/src/custom-fields/validator.ts:212-225 | the raw merge-patch, entry by entry |
| `CustomValidator.ValidatePatch` | packages/shared/src/custom-fields/validator.ts:248-309 | the loops compute the complete error list or the merged blob |
| `CustomFieldHistory.MergedAt` | packages/shared/src/custom-fields/validator.ts:251-276 | each key's new value depends on its old value and its own entry alone |
| `CustomFieldHistory.PatchedAt` | packages/shared/src/custom-fields/validator.ts:212-225 | the raw merge-patch key by key: null clears, a value replaces, absence keeps |
| `CustomFieldHistory.ErrorsAreExact` | packages/shared/src/custom-fields/validator.ts:283-306 | exactly one error per bad entry and one per missing required field |
| `CustomFieldHistory.BadEntryIff` | packages/shared/src/custom-fields/validator.ts:251-276 | an entry is bad exactly if its key is unknown, or its value neither null nor undefined and refused |
| `CustomFieldHistory.MissingIffReported` | packages/shared/src/custom-fields/validator.ts:200-202 | a key is reported missing exactly if its last definition requires it and the merged blob holds no value for it |
| `CustomFieldHistory.RequiredKeysHoldValues` | packages/shared/src/custom-fields/validator.ts:290-300 | what passes with required fields enforced holds a value for each of them |
| `CustomFieldHistory.CreatedRecordsAreComplete` | packages/api/src/modules/constituents/service.ts:515-530 | over every history a create leaves each required key with a value well-formed for its definition |
| `CustomFieldHistory.SuccessIsNormalisedPatch` | packages/shared/src/custom-fields/validator.ts:212-309 | a successful validation equals the raw merge-patch of the normalised patch |
| `CustomFieldHistory.OrderDoesNotMatter` | packages/shared/src/custom-fields/validator.ts:278-309 | entry order changes neither the result nor the set of errors |
| `CustomFieldHistory.PatchingTwiceChangesNothing` | packages/shared/src/custom-fields/validator.ts:278-309 | a successful patch is idempotent |
| `CustomFieldHistory.BlobStaysWellFormed` | packages/shared/src/custom-fields/validator.ts:8-17 | over every history of catalogs and patches, each stored value is well-formed for the definition that last wrote it |
| `CustomFieldHistory.BlobStaysClean` | packages/shared/src/custom-fields/validator.ts:9-12 | it holds no null, empty string or empty array, if no active picklist option has the empty id |
| `CustomFieldHistory.EmptyIdIsStored` | packages/shared/src/custom-fields/validator.ts:140-156 | with such an option one patch stores the empty string |
| `CustomFieldHistory.UnnamedKeysKeepTheirValue` | packages/shared/src/custom-fields/validator.ts:239-246 | a key that no patch names keeps its value whatever happens to its definition |
| `ImportHeaders.BuildResolver` | packages/shared/src/custom-fields/import.ts:47-65 | an alias resolves to its last claimant, else a label to its first, the empty header to nothing |
| `ImportHeaders.HeaderOfParts` | packages/shared/src/custom-fields/import.ts:33-35 | however the parts of a header are spaced, it normalises to its normalised parts with one space between |
| `ImportHeaders.HeaderIgnoresCase` | packages/shared/src/custom-fields/import.ts:33-35 | and case does not matter |
| `ImportHeaders.LabelIsPrintedIff` | packages/shared/src/custom-fields/import.ts:76-96 | the template prints the label exactly if it is not blank, core, of the aliases' form or an earlier definition's; else the alias |
| `ImportHeaders.HeaderResolvesIff` | packages/shared/src/custom-fields/import.ts:47-96 | a printed header resolves to its own definition unless it is an alias that a later key also normalises to |
| `ImportHeaders.AllHeadersResolveIff` | packages/shared/src/custom-fields/import.ts:47-96 | for distinct keys, all headers read back under every core header map iff the normalised aliases are distinct |
| `ImportHeaders.AdmittedKeysRoundTrip` | packages/shared/src/custom-fields/types.ts:35-39 | with keys of the admitted pattern, distinct keys are enough |
| `ImportHeaders.CaseVariantsMisroute` | packages/shared/src/custom-fields/import.ts:52-54 | a key that differs from a later one only in case loses its column to it |
| `ImportHeaders.FindDuplicateHeaderKeys` | packages/shared/src/custom-fields/import.ts:109-120 | the loop lists keys in the order in which their second columns come |
| `ImportHeaders.DuplicatedIff` | packages/shared/src/custom-fields/import.ts:98-120 | that list names exactly the keys claimed by more than one column, each once |
| `ImportCells.CellRefusedIff` | packages/shared/src/custom-fields/import.ts:155-260 | which cells are refused with which code, for every kind |
| `ImportCells.BooleanCells` | packages/shared/src/custom-fields/import.ts:141-186 | the texts that mean yes and no, in any case and spacing |
| `ImportCells.ResolvedIff` | packages/shared/src/custom-fields/import.ts:193-202 | a cell names the first active option with its label, else the first with its id |
| `ImportCells.SplitAtFirst` | packages/shared/src/custom-fields/import.ts:217-221 | list cells are cut at each semicolon and bar, and nowhere else |
| `ImportCells.ParseMultiPicklist` | packages/shared/src/custom-fields/import.ts:216-236 | the loop: ids of the parts, first occurrences in order, or an error if some part names no option |
| `ImportCells.OptionIdsAre` | packages/shared/src/custom-fields/import.ts:222-235 | those ids are the parts' own, first occurrences in order; they exist if every part names an option |
| `ImportCells.ParsedCellIsAccepted` | packages/shared/src/custom-fields/import.ts:15-18 | whatever a coerced cell parses to, the validator takes unchanged, given distinct option ids |
| `ImportCells.BuildPatchFromRow` | packages/shared/src/custom-fields/import.ts:276-293 | the row loop computes the row's patch and its errors in order |
| `ImportCells.RowAt` | packages/shared/src/custom-fields/import.ts:270-293 | each column alone decides: skipped, in the patch under its key, or an error |
| `CellLists.PartsOfJoin` | packages/shared/src/custom-fields/import.ts:217-221 | labels joined by `; ` split back into the labels, less the blank ones |
| `Amounts.AmountIff` | packages/shared/src/custom-fields/import.ts:144-145 | an amount is a minus or none, digits, and nothing or a point or comma with one or two digits |
| `Amounts.AmountDenotes` | packages/shared/src/custom-fields/import.ts:163-174 | and denotes those digits, with the last ones as tenths or hundredths |
| `Amounts.MarksDoNotMatter` | packages/shared/src/custom-fields/import.ts:163-164 | white space and apostrophes change nothing, wherever they stand |
| `Amounts.AmountIsExact` | packages/shared/src/custom-fields/import.ts:163-174 | under relative error 2^-53 per operation, every accepted cell below 2^51 cents is read exactly |
| `Amounts.PrintThenParse` | packages/shared/src/custom-fields/import.ts:144-174 | cents printed with either separator, with any spaces and apostrophes inserted, read back as the same cents |
| `ExportRoundTrip.NoCellLeadsFormula` | packages/api/src/modules/constituents/export.ts:58-71 | whatever is stored, no exported cell and none handed on by the row parser starts a formula; other cells stay as they are |
| `ExportRoundTrip.OptionLabelIs` | packages/api/src/modules/constituents/export.ts:77-79 | an option is exported as the label of the first option with its id, an unknown id as itself |
| `ExportRoundTrip.CurrencySurvives` | packages/api/src/modules/constituents/export.ts:97-98 | every amount below 2^51 cents survives export and import, negative ones included |
| `ExportRoundTrip.NumberSurvivesIff` | packages/shared/src/custom-fields/import.ts:155-161 | a number survives iff it is not negative |
| `ExportRoundTrip.PicklistSurvivesIff` | packages/shared/src/custom-fields/import.ts:187-202 | an option survives iff it owns its label and the label does not start a formula |
| `ExportRoundTrip.MultiPicklistSurvivesIff` | packages/shared/src/custom-fields/import.ts:216-236 | a list survives iff every option owns its label and the joined text does not start a formula |
| `ExportRoundTrip.RoundTripIff` | packages/api/src/modules/constituents/export.ts:77-104 | export then import gives the stored value back exactly under these conditions, for every kind |
| `ExchangeRate.ExchangeRateService.ReadCachedRate` | packages/shared/src/finance/exchange-rate-service.ts:62-76 | the live entry; an expired one is dropped |
| `ExchangeRate.ExchangeRateService.FetchAndStoreRate` | packages/shared/src/finance/exchange-rate-service.ts:185-251 | both outcomes are cached, only a rate is stored, an insert may fail before or after it took effect, and without an API key nothing happens |
| `ExchangeRate.ExchangeRateService.GetRate` | packages/shared/src/finance/exchange-rate-service.ts:112-174 | the answer, its source and the whole new state |
| `ExchangeRate.CallIsForToday` | packages/shared/src/finance/exchange-rate-service.ts:112-120 | a lookup is about the capitals of both codes, however spaced and cased, on the UTC day of the clock |
| `ExchangeRate.TodaysRowAnswers` | packages/shared/src/finance/exchange-rate-service.ts:112-136 | equal codes convert at 1, else a usable row of the day answers |
| `ExchangeRate.CachedRateAnswers` | packages/shared/src/finance/exchange-rate-service.ts:138-141 | without one, a live cached rate answers and nothing changes |
| `ExchangeRate.QuotedRateAnswers` | packages/shared/src/finance/exchange-rate-service.ts:143-146 | without a live entry, the remote's quote answers |
| `ExchangeRate.FetchLeaves` | packages/shared/src/finance/exchange-rate-service.ts:185-251 | what a quoted rate leaves in cache and table, for every outcome of the insert |
| `ExchangeRate.FailedFetchLeaves` | packages/shared/src/finance/exchange-rate-service.ts:185-251 | a fetch without a quote is cached as such and leaves the table alone |
| `ExchangeRate.LatestRowAnswers` | packages/shared/src/finance/exchange-rate-service.ts:148-174 | with nothing from cache and remote the pair's latest row answers, or 1 if it does not read back |
| `ExchangeRate.NoRowAnswers` | packages/shared/src/finance/exchange-rate-service.ts:168-173 | and 1 if the pair has no row |
| `ExchangeRate.UpsertKeepsOthers` | packages/shared/src/finance/exchange-rate-service.ts:216-240 | the upsert replaces the row of its currency, base and day alone and keeps rows unique |
| `ExchangeRate.ExchangeRateService.ConvertAmountCents` | packages/shared/src/finance/exchange-rate-service.ts:176-183 | the converted amount is the rounded double product with the rate looked up |
| `ExchangeRate.FetchesAreSpaced` | packages/shared/src/finance/exchange-rate-service.ts:124-136 | in every sequential run two fetches for one source, target and day are the TTL apart, success or failure |
| `ExchangeRate.RatesArePositive` | packages/shared/src/finance/exchange-rate-service.ts:49-52 | every rate returned in every run is strictly positive |
| `ExchangeRate.FetchedThenStored` | packages/shared/src/finance/exchange-rate-service.ts:133-146 | after a fetch that stored its rate, reported or not, every later call of that day gets the stored decimal, if that is positive |
| `ExchangeRate.ConversionsAgree` | packages/shared/src/finance/exchange-rate-service.ts:176-183 | with every product and the reading back rounded to a double, the fetched and the stored rate convert to within one cent while abs(a) / (2 * 10^8) + (abs(a * rate) + 1) / 2^51 is at most one |
| `ExchangeRate.BoundIsTight` | packages/shared/src/finance/exchange-rate-service.ts:176-183 | in binary64, 199999999 cents at 164.500000425, where that sum is below 1.00002, differ by two cents |
| `ExchangeRate.SameDayConversions` | packages/shared/src/finance/exchange-rate-service.ts:133-183 | under the same condition every conversion of the day is within a cent of the first one |
| `ExchangeRate.KeysTellApart` | packages/shared/src/finance/exchange-rate-service.ts:58-60 | without colons in the codes, cache keys are equal iff pair and printed date are |

## Left out

- Redis, Postgres, BullMQ, fetch and Fastify themselves: each is its observable contract (atomic set-if-absent, deduplication by id while retained, unique rows, calls that fail before or after taking effect).
- Characters outside ASCII: white space, upper and lower case and the pattern classes are the ASCII ones.
- Floating-point exceptions: rounding is a relative error of 2^-53, and for the counterexample to the nearest double, with no overflow or underflow.
- Amounts.AmountIsExact: amounts of 2^51 cents and more, where the two roundings together can reach half a cent.
- ExchangeRate.ConversionsAgree: one direction only; past a drift of one it depends on the bits of the products which conversions still agree.
- ExchangeRate.LatestRowAnswers: the table's rows are unique by currency, base and day, so ties by update time cannot occur.
- ExchangeRate.FetchesAreSpaced: sequential runs of one process only; overlapping calls and a restart can fetch again, and the test hook that clears the cache is not modelled.
- Idempotency.SuccessIsReplayed: requests that never overlap, nothing expires and no call fails; everything else is covered by the counting bound. Bodies are opaque text, so their JSON round trip is not modelled.
- ImportHeaders.BuildResolver: says nothing of core headers, which the parser claims before it asks.
- ExportRoundTrip.RoundTripIff: the quoting of CSV cells and the header row's own formula guard are not part of this model; printing and reading numbers is the host's, with the laws of `IsFaithful`.
- TokenCache.OneRequestAtATime: one process; other processes keep their own cache.
- TokenCache.NeverServedDeadIff: what a caller does with a token after it got it; issue and arrival are read on one clock.
- Outbox.AtMostOneReceiptPerDonation: `routeDomainEvent` is any function of the event; the notification and erasure fan-outs before the switch are not modelled.
- Row locks: each SELECT may find any set of rows locked by others; who locks them, and for how long, is not modelled.
- RelayTick.Draining: a sole replica, no faults and no new rows; with faults rows can end as failed and nothing retries them.
- Objects with inherited property names: blobs, patches and row values are maps.
- The classification of IBANs by country and QR-IID, the sample cells of the template, log lines, messages and metrics: they would add only easy members.
- Receipt encryption, SVG sanitising, branding storage, authentication guards, quotas and the web client.
