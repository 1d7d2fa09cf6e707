# Verification of the billing platform's admission control and billing state

The billing platform puts two per-tenant gates in front of its endpoints, both kept in Redis: a
token bucket (how fast requests may start) and a slot semaphore (how many heavy requests may run
at once). Behind them an ingest endpoint records usage events idempotently, a calculate endpoint
turns the event count into a draft invoice, and a generate endpoint issues the draft. This
project models that behaviour and proves what its documentation promises, for all inputs and all
interleavings, or shows exactly when it fails.

`dafny verify dfyconfig.toml` checks everything.

## How the model is built

| file | what it is |
|---|---|
| `TenantPlan.dfy` | plan catalog, endpoint costs, which paths are guarded and heavy |
| `KeySchema.dfy` | the six `billing:` key families |
| `TokenBucket.dfy` | the bucket script as a function of its hash, runs of calls, and the eager bucket it refines |
| `Semaphore.dfy` | the slot script and release as functions of the sorted set, and runs of both |
| `RedisStore.dfy` | cells with expiry, and every command as one atomic step on one cell |
| `RedisServer.dfy` | Redis as a class that changes in place; both Lua scripts run command by command |
| `Program.dfy` | one request as a program that sends one command at a time, with its faults |
| `Gateway.dfy` | the middlewares and use cases as methods of a worker class, with exceptions and `finally` |
| `Platform.dfy` | all requests of all tenants interleaved, one command a step, over one store |
| `Isolation.dfy`, `Admission.dfy`, `SlotHistory.dfy`, `Refusals.dfy`, `Ingestion.dfy`, `Invoices.dfy` | the theorems about whole runs |
| `RateTable.dfy`, `Answers.dfy`, `Calculations.dfy`, `Issuance.dfy` | the rate limits tenant by tenant, and what each endpoint answers and stores, with every number written out |
| `Passage.dfy`, `SkewMargin.dfy` | how a request gets through the gates and out again, and the run that shows the skew margin to be exact |

Three layers say the same thing and are proved to agree. The imperative layer (`RedisServer`,
`Gateway`) has the shape of the code: fields reassigned in place, scripts as sequences of Redis
calls, exceptions that propagate, release in a `finally` that runs on a response and on an
exception but not when the worker dies. The request program (`Program`) is what those methods are
proved against, with arbitrary commands of other clients between any two steps. The platform
(`Platform`) schedules any number of requests step by step; `Platform.RunsAreServed` shows that
each request of each run is such a served request, so the theorems about runs are theorems about
the methods.

Time is explicit. Every step carries the Redis time, the worker's own clock, an unused identifier
and possibly a fault: an error before Redis acts, a reply lost after Redis acted, or the death of
the worker. Reading the clock for the slot gate and running the slot script are separate steps.
Amounts are exact: one token is 1,000,000 micro-tokens, times are whole microseconds, prices and
amounts are decimals.

## Where a promise needs a condition

- **Bucket expiry.** On a Redis clock that does not step back, the window bound and the
  invisibility of rejected calls hold for all runs if and only if an empty bucket refills within
  the hour its key lives (`rate * 3600 >= capacity`). On the same condition exactly, the retry
  hint is exact on such a clock (`TokenBucket.RetryHintIff`), and on any clock the token ledger
  balances (`TokenBucket.LedgerIff`) and the bucket equals one that never expires
  (`TokenBucket.RefinementIff`). Every shipped plan meets the condition.
- **Clock.** The window bound and the invisibility of rejected calls need that clock: on arbitrary
  clocks they hold for all runs only of a bucket of capacity 0 (`TokenBucket.WindowNeedsForwardClock`,
  `TokenBucket.RejectionsNeedForwardClock`). The retry hint is stated on a forward clock too.
  Refinement and ledger need none.
- **Slots under clock skew.** Holders stay within the cap in all runs if and only if they release
  within 60 s less twice the skew (`Admission.InFlightBound`, `SkewMargin.MarginIff`).
- **Slow holders.** Let slot scripts run up to `delay` after their clock reads. At most `k` times
  the cap of unreleased holders lie within any `k` spans of stamps, in all runs, if and only if
  the span is at most 60 s less the delay (`Semaphore.SpanIff`). With spans of a full 60 s that
  end at a moment of the run, the bound holds for every `k` if and only if there is no delay
  (`Semaphore.MomentIff`); for `k = 1` it holds with any delay (`Semaphore.YoungHolderBound`). The
  expiry of the whole key changes no admission if and only if there is no delay
  (`Semaphore.KeyExpiryIff`).
- **Tenant ids.** Different tenants own a common key if and only if one id is the other extended
  across a colon, and exactly then a run of both can show one the other: one tenant's ingest turns
  the other's into a duplicate (`Isolation.InterferenceIff`).
- **Late issue.** A generate keeps the calculated invoice if and only if the key is still there
  when it writes (`Invoices.WriteKeepsIffLive`), and all states of a run are sound if and only if
  no generate writes late (`Invoices.LifecycleIff`). A late write brings the key back with a
  status and a time of issue only. If nobody else touches the key in between, the writer's own
  EXPIRE then gives it another hour; if that EXPIRE fails before Redis or the worker dies, it has
  no expiry until a later generate's EXPIRE (`Invoices.LateWriteLeaves`). While it lives, a
  generate that reads it answers with an empty customer and amount 0;
  `Invoices.LateWriteResurrects` is such a run, through both gates, more than an hour later. The
  docstring of `generate_for` calls the read-then-write benign; the code is followed.
- **Event counts.** Under seven days a count equals the distinct keys claimed if and only if no
  append is pending and none was lost between claim and append.
- **Pool size.** The comment on `PLANS` says the caps of all tenants stay well under a pool of 50.
  The listed tenants add up to 38 and every unlisted one adds 5, so that holds for at most two
  active unlisted tenants.

## Model

| member | source | states |
|---|---|---|
| TenantPlan.PlanFor | billing/domain/tenant_plan.py:66-95 | the rate, burst and slot cap of globex, initech, acme-corp and piedmont and of every unlisted tenant, tenant by tenant; every plan refills its burst within an hour |
| TenantPlan.IsHeavy | billing/interfaces/api/incoming/middleware.py:42-45 | the endpoints under the slot gate are exactly those costing more than one token |
| TenantPlan.ShouldGuard | billing/interfaces/api/incoming/middleware.py:78-80 | all three billing endpoints are behind the rate gate |
| TenantPlan.GuardedIff | billing/interfaces/api/incoming/middleware.py:78-80 | a path is behind the rate gate if and only if it continues "/api/v1/" |
| TenantPlan.PlatformCaps | billing/domain/tenant_plan.py:61-85 | distinct tenants' caps sum to at most 38 + 5 per unlisted tenant; 50 connections cover them if and only if at most two unlisted tenants are active besides the listed ones |
| KeySchema.RenderInjective | billing/infrastructure/event_repository.py:233-238 | equal keys are of one family and, unless the ids overlap across a colon, of one tenant and suffix |
| KeySchema.KeySpacesMeetIff | billing/application/billing_calculator.py:196-215 | two tenants own a common Redis key if and only if one id extends the other across a colon; colon-free ids never do |
| TokenBucket.LevelIsTicked | billing/infrastructure/token_bucket.py:45-50 | the level found after lazy refill, or after expiry and re-creation, is the level of a bucket ticked every microsecond |
| TokenBucket.LazyRefinesEager | billing/infrastructure/token_bucket.py:42-62 | for every call sequence and any clock the script gives the decisions and tokens of an eager bucket that never expires |
| TokenBucket.RefinementIff | billing/infrastructure/token_bucket.py:42-62 | that refinement holds for all runs if and only if the bucket refills within its key's hour |
| TokenBucket.Ledger | billing/infrastructure/token_bucket.py:49-62 | when the bucket refills within its key's hour: initial tokens plus refill equal tokens admitted plus spilled by the clamp plus left, and what is left is within capacity, on any clock |
| TokenBucket.LedgerIff | billing/infrastructure/token_bucket.py:42-62 | that ledger balances on every run from a full bucket if and only if the bucket refills within its key's hour |
| TokenBucket.WindowStays | billing/infrastructure/token_bucket.py:42-62 | cost admitted in any window is at most burst + rate * length, expiries and re-creation included |
| TokenBucket.WindowBoundIff | billing/infrastructure/token_bucket.py:42-62 | the window bound holds for all runs on a forward clock if and only if the bucket refills within its key's hour |
| TokenBucket.WindowNeedsForwardClock | billing/infrastructure/token_bucket.py:49-53 | on arbitrary clocks the window bound holds for all runs if and only if the capacity is 0, because `last_refill` is overwritten with an earlier time |
| TokenBucket.LevelComposes | billing/infrastructure/token_bucket.py:49-50 | refilling across a split interval loses nothing, expiry of the key in between included |
| TokenBucket.RejectionKeepsLevels | billing/infrastructure/token_bucket.py:52-57 | a rejection, though it rewrites tokens, time and expiry, changes no later level |
| TokenBucket.DroppingRejections | billing/infrastructure/token_bucket.py:52-57 | on a forward clock removing any subset of rejected calls leaves every other decision and token count unchanged |
| TokenBucket.RejectionsInvisibleIff | billing/infrastructure/token_bucket.py:52-57 | rejections are invisible in all runs on a forward clock if and only if the bucket refills within its key's hour |
| TokenBucket.RejectionsNeedForwardClock | billing/infrastructure/token_bucket.py:49-57 | on arbitrary clocks they are invisible in all runs if and only if the capacity is 0 |
| TokenBucket.RetryHintExact | billing/infrastructure/token_bucket.py:52-57 | on a forward clock, when the bucket refills within its key's hour: after a rejection with only rejections since, a call of the same cost is admitted if and only if the hinted time has passed; the rounded header suffices |
| TokenBucket.RetryHintIff | billing/infrastructure/token_bucket.py:52-57 | for every positive rate the hint is exact on every run on a forward clock if and only if the bucket refills within its key's hour |
| Semaphore.HistoryAgrees | billing/infrastructure/concurrency_semaphore.py:95-105 | a slot is in the set if and only if the log has an admitted, unreleased acquire for it that outlived every cutoff and key expiry since |
| Semaphore.AdmissionFromLog | billing/infrastructure/concurrency_semaphore.py:95-105 | an acquire is admitted if and only if the holders the log counts at its cutoff are below capacity, and reports that number |
| Semaphore.StaleAtSixtySeconds | billing/infrastructure/concurrency_semaphore.py:82-105 | an acquire that finds all slots taken at one stamp is refused for 60,000,000 microseconds from that stamp, reporting them all, and after that admitted as the only holder |
| Semaphore.KeyExpiryIsTransparent | billing/infrastructure/concurrency_semaphore.py:98-105 | on one clock every acquire is told, admission and count, what a semaphore whose key never expires tells it |
| Semaphore.KeyExpiryIff | billing/infrastructure/concurrency_semaphore.py:98-105 | for every capacity and delay, every acquire of every run is told the same with and without key expiry if and only if the delay (or the capacity) is 0 |
| Semaphore.SlowHolderBound | billing/infrastructure/concurrency_semaphore.py:88-163 | at most k * capacity unreleased holders are younger than k times 60 s, each less the delay between clock read and script, whatever is evicted or expires and whoever overtakes whom |
| Semaphore.YoungHolderBound | billing/infrastructure/concurrency_semaphore.py:88-163 | at any moment of any run at most capacity unreleased holders are younger than 60,000,000 microseconds, whatever the delay |
| Semaphore.SpanIff | billing/infrastructure/concurrency_semaphore.py:132-147 | for every capacity and delay, the bound holds of all runs for a span if and only if the span is at most 60 s less the delay |
| Semaphore.MomentIff | billing/infrastructure/concurrency_semaphore.py:132-147 | at moments of a run the bound with full 60 s spans holds of all runs if and only if the delay is 0 |
| Semaphore.SlowHoldersExceedCapacity | billing/infrastructure/concurrency_semaphore.py:88-106 | the factor is needed: a slow holder is evicted while running and capacity one has two holders |
| RedisStore.ConsumeIsBucketStep | billing/infrastructure/token_bucket.py:45-62 | the script on the Redis hash and its expiry is the bucket step |
| RedisStore.SlotCommandsAreSteps | billing/infrastructure/concurrency_semaphore.py:95-105 | the script and ZREM on the sorted set and its expiry are the semaphore steps |
| RedisServer.BucketCommands | billing/infrastructure/token_bucket.py:45-62 | HMGET, HSET and EXPIRE in a row make one atomic step |
| RedisServer.SlotCommands | billing/infrastructure/concurrency_semaphore.py:95-105 | evict, count, insert and expire in a row make one atomic step, the emptied and re-created key included |
| RedisServer.Server.BucketScript | billing/infrastructure/token_bucket.py:37-63 | the script run command by command leaves the store and the reply of the atomic step, on its own key only |
| RedisServer.Server.SlotScript | billing/infrastructure/concurrency_semaphore.py:88-106 | likewise for the slot script |
| RedisServer.Server.ZRem | billing/infrastructure/concurrency_semaphore.py:155-163 | release removes one member, and the key with the last one |
| RedisServer.Server.SetIfNew | billing/infrastructure/event_repository.py:211-214 | the marker is set with its expiry only if none is live |
| RedisServer.Server.XAdd | billing/infrastructure/event_repository.py:148-151 | the entry is appended to the stream and nothing else changes |
| RedisServer.Server.HSet | billing/application/invoice_generator.py:135-141 | fields are merged, the expiry is kept, and a missing key is created without one |
| RedisServer.Server.Execute | billing/infrastructure/token_bucket.py:91-103 | every command or script of the client is one atomic step of the store |
| Program.OwnKeysOnly | billing/interfaces/api/incoming/middleware.py:181-182 | a request only addresses keys of its own tenant |
| Program.RoundHalfEvenIff | billing/application/billing_calculator.py:208 | rounding is to the nearest, and to the even one of two |
| Program.AmountIsNearest | billing/application/billing_calculator.py:204-208 | the amount is count times price to the nearest ten-thousandth, ties to even |
| Gateway.Worker.Send | billing/interfaces/api/incoming/middleware.py:64-71 | a round trip with its faults is one step of the request program, other clients' commands before it included |
| Gateway.Worker.ClaimIdempotency | billing/infrastructure/event_repository.py:155-214 | only the caller that set the marker goes on to append |
| Gateway.Worker.RecordEvent | billing/infrastructure/event_repository.py:99-152 | claim, then append; an entry id if and only if not a duplicate |
| Gateway.Worker.PersistDraft | billing/application/billing_calculator.py:218-245 | the hash and its expiry are two steps, with a gap a failure can hit |
| Gateway.Worker.CalculateFor | billing/application/billing_calculator.py:191-257 | count, price, draft and expiry follow the request program; a price that is no number raises |
| Gateway.Worker.FlipToIssued | billing/application/invoice_generator.py:134-156 | write, expire, then answer from the earlier read |
| Gateway.Worker.GenerateFor | billing/application/invoice_generator.py:118-156 | an absent draft is not found; otherwise three separate steps |
| Gateway.Worker.View | billing/interfaces/api/incoming/views.py:40-276 | routing, tenant header, body, use case follow the request program |
| Gateway.Worker.AcquireSlot | billing/infrastructure/concurrency_semaphore.py:125-152 | clock and identifier are sampled one step before the script |
| Gateway.Worker.ReleaseSlot | billing/interfaces/api/incoming/middleware.py:169-178 | a failed release does not change the response |
| Gateway.Worker.ConcurrencyGate | billing/interfaces/api/incoming/middleware.py:125-178 | acquire, view, release in `finally`; refusals and failing open do not release |
| Gateway.Worker.CheckAndConsume | billing/application/rate_limiter.py:51-68 | the endpoint's cost is drawn from the tenant's one bucket |
| Gateway.Worker.RateGate | billing/interfaces/api/incoming/middleware.py:54-76 | charge, then the slot gate; rejection goes no further, a gate error lets the request through |
| Gateway.Worker.Serve | billing/interfaces/api/incoming/middleware.py:54-178 | the whole pipeline leaves in Redis and answers what the request program does, whatever others do in between, within nine steps |
| Platform.RunsAreServed | billing/interfaces/api/incoming/middleware.py:54-178 | in every interleaving each request lives exactly a run served by one worker with the others' commands in between |
| Platform.RateRefinement | billing/application/rate_limiter.py:51-76 | a tenant's bucket key and decisions are those of the bucket model on the tenant's logged calls |
| Platform.CostsByEndpoint | billing/application/rate_limiter.py:31-48 | what the bucket admits costs exactly ingests + 10 calculates + 15 generates + 1 for every other guarded request |
| Platform.PlatformWindowBound | billing/application/rate_limiter.py:31-60 | for every tenant, window and interleaving: what the bucket admits of ingests + 10 calculates + 15 generates + other guarded requests is at most the tenant's burst + rate * length; requests a failing rate gate lets through are not admitted by it and not counted |
| RateTable.BurstsByTenant | billing/domain/tenant_plan.py:66-85 | at one moment an idle bucket admits exactly 1000 tokens of globex, 200 of initech, 100 of acme-corp, 50 of piedmont and 200 of an unlisted tenant, and refuses the next |
| RateTable.RefillsByTenant | billing/infrastructure/token_bucket.py:45-57 | drained, each of them admits a call after d microseconds if and only if d times its 500, 100, 50, 20 or 100 micro-tokens, up to its burst, cover the cost |
| RateTable.WindowsByTenant | billing/domain/tenant_plan.py:66-85 | the window bound of every run with each tenant's own burst and rate |
| Isolation.NonInterference | billing/interfaces/api/incoming/middleware.py:125-182 | deleting all other tenants' steps from any run leaves a separate tenant's requests, keys and replies unchanged |
| Isolation.ColonFreeTenantsAreSeparate | billing/infrastructure/event_repository.py:233-238 | colon-free tenant ids satisfy that condition |
| Isolation.OverlapInterferes | billing/infrastructure/event_repository.py:233-234 | any two tenants with overlapping ids have a run from arrival in which one's ingest makes the other's a duplicate |
| Isolation.InterferenceIff | billing/infrastructure/event_repository.py:233-238 | no run of two tenants ever shows one the other if and only if their ids do not overlap |
| Admission.OneReleasePerGrant | billing/interfaces/api/incoming/middleware.py:148-178 | one release attempt per granted slot on every way out of the view, none on refusal or failing open; refused requests leave no slot, claim or draft |
| Admission.SlotOwnership | billing/interfaces/api/incoming/middleware.py:137-178 | every member of the slot set belongs to exactly one request that holds it, crashed, failed to release or lost its acquire reply; a quiescent fault-free tenant has none |
| Admission.InFlightBound | billing/infrastructure/concurrency_semaphore.py:125-163 | under skew, faults and crashes no timely holder is evicted, holders stay within the cap, and running heavy views exceed it only by failed-open ones |
| SkewMargin.MarginIff | billing/infrastructure/concurrency_semaphore.py:125-163 | for every plan, skew and time limit, holders that release within the limit stay within the cap in all runs if and only if the limit is at most 60,000,000 microseconds less twice the skew; the failing run has no faults |
| Admission.PlatformCap | billing/domain/tenant_plan.py:61-95 | when the slot scripts of the listed tenants meet no fault, whatever else fails or crashes, running heavy views of distinct tenants are at most 38 + 5 per unlisted tenant |
| SlotHistory.SlotRefinement | billing/interfaces/api/incoming/middleware.py:135-138 | a tenant's slot key is the semaphore run on the tenant's logged commands |
| SlotHistory.SlotSetFromLog | billing/infrastructure/concurrency_semaphore.py:95-105 | the history theorem for the slot set of every tenant in every interleaving |
| SlotHistory.SlotGateDecision | billing/interfaces/api/incoming/middleware.py:137-165 | a scheduled acquire is admitted if and only if fewer holders than the cap survive in the log, and reports that number |
| SlotHistory.PlatformSlowHolders | billing/infrastructure/concurrency_semaphore.py:88-163 | on one forward clock with scripts at most a delay after their clock reads, requests holding a slot stamped within k times 60 s, each less the delay, number at most k times the cap, though none need ever finish |
| Refusals.PlatformLedger | billing/infrastructure/token_bucket.py:49-62 | a tenant's full bucket plus refill is what the gate charged, later slot refusals included, plus spill plus rest |
| Refusals.ShippedRetryHeader | billing/interfaces/api/incoming/middleware.py:82-98 | for every shipped plan and endpoint the header of a refusal is one second |
| Refusals.PlatformRetryHeader | billing/interfaces/api/incoming/middleware.py:82-98 | every rate refusal of every run carries Retry-After 1 |
| Refusals.RefusedDidNothingElse | billing/interfaces/api/incoming/middleware.py:64-76 | a request is charged at most once and first; a rate-refused one did nothing else, a slot-refused one only its charge and the refused acquire |
| Refusals.FirstStepIsCharge | billing_platform/settings.py:28-38 | a guarded request cannot pass the rate gate unpaid unless the gate fails |
| Ingestion.MarkersInvariant | billing/infrastructure/event_repository.py:211-214 | every live marker is some claim's, and claims of one marker are at least 604,800,000,000 microseconds apart |
| Ingestion.DuplicateIff | billing/infrastructure/event_repository.py:138-141 | in every run a fault-free claim is a duplicate if and only if its marker was claimed less than 604,800,000,000 microseconds before; otherwise it goes on to append |
| Ingestion.IdempotentClaims | billing/infrastructure/event_repository.py:138-152 | a span has at most one successful claim of a marker per started seven days |
| Ingestion.StreamInvariant | billing/infrastructure/event_repository.py:148-152 | a tenant's stream is exactly the entries its requests appended, each once, at the position it was told |
| Ingestion.IngestConservation | billing/infrastructure/event_repository.py:122-152 | claims equal stream entries plus appends pending plus claims lost in the gap, in every state |
| Ingestion.NoDoubleCount | billing/infrastructure/event_repository.py:138-152 | two stream entries with one key were claimed at least seven days apart |
| Ingestion.OnlyOneFirst | billing/infrastructure/event_repository.py:138-139 | under seven days at most one request per key is told duplicate=False, with any faults |
| Ingestion.ExactlyOneFirst | billing/infrastructure/event_repository.py:138-152 | if no claim or append for the key was hit by a fault, exactly one is, once any of them has been answered and the claimant's own append is done, whatever fails elsewhere |
| Ingestion.EventCountIsDistinctKeys | billing/application/billing_calculator.py:196-198 | in a run under seven days where no claim or append of the tenant was hit by a fault and no append is pending, a calculation reads the number of distinct keys ingested, whatever else fails |
| Ingestion.CountIsRightIff | billing/infrastructure/event_repository.py:122-152 | with any faults the count never exceeds the distinct keys claimed and equals them if and only if nothing is pending or lost in the gap |
| Invoices.NamesInvariant | billing/application/billing_calculator.py:214-215 | every invoice is drafted by one request, and its answer repeats what it stored |
| Invoices.InvoiceLifecycle | billing/application/invoice_generator.py:124-156 | without late writes an invoice stays as calculated, moves only from draft to issued, stays gone once gone, lacks an expiry only in its draft's gap, and every generate answers with the calculated customer and amount |
| Invoices.WriteKeepsIffLive | billing/application/invoice_generator.py:135-141 | a generate's write keeps the calculated invoice if and only if the key is still there |
| Invoices.LifecycleIff | billing/application/invoice_generator.py:124-156 | all states of a run store, read and answer invoices as calculated if and only if no generate of the tenant writes after its key expired |
| Invoices.LateWriteLeaves | billing/application/invoice_generator.py:134-145 | a late write brings the key back with a status and no expiry; if nobody touches it before the writer's next step, that step's EXPIRE gives it an hour, and otherwise it keeps none |
| Invoices.RemnantIsIssued | billing/application/invoice_generator.py:124-156 | while that remnant lives, every generate that reads it issues to customer "" over 0 |
| Invoices.LateWriteResurrects | billing/application/invoice_generator.py:124-156 | a run from arrival through both gates: the key expires between read and write, the writer dies, and more than an hour later another generate issues to customer "" over 0 |
| Invoices.DraftBillsTheStream | billing/application/billing_calculator.py:198-241 | every stored draft bills the length its tenant's stream had at one moment of the run, at the rounded product |
| Answers.EntryAnswers | billing/interfaces/api/incoming/views.py:50-65 | no such route, missing tenant and bad body are answered in that order and before any command; otherwise the route's own use case starts |
| Answers.ViewFaultAnswers | billing/interfaces/api/incoming/views.py:243-261 | a command of a view that errs or loses its reply is answered with a server error, whatever Redis did |
| Answers.GateFaultsOpen | billing/interfaces/api/incoming/middleware.py:64-71 | a gate that fails lets the request through, holding nothing |
| Answers.UngatedPass | billing/interfaces/api/incoming/middleware.py:55-62 | requests without a tenant or outside the guarded or heavy paths pass the gates untouched |
| Answers.ReleaseKeepsAnswer | billing/interfaces/api/incoming/middleware.py:167-178 | the view's answer survives its release, failed or not |
| Answers.RateGateAnswers | billing/interfaces/api/incoming/middleware.py:64-98 | in every run a guarded request without a fault goes on if the bucket its tenant's logged calls left holds its cost, and is else answered 429 with one second to wait |
| Answers.SlotGateAnswers | billing/interfaces/api/incoming/middleware.py:137-165 | in every run a heavy request without a fault enters with a slot if fewer than its tenant's cap survive in the log, and is else answered 429 with their number and that cap |
| Answers.FreshIngestAppends | billing/infrastructure/event_repository.py:122-152 | from arrival: without a live marker one is left for seven days, the one entry is added at the end of the stream, and the answer is no duplicate |
| Answers.RepeatedIngestIsDuplicate | billing/infrastructure/event_repository.py:138-141 | from arrival: with a live marker the answer is duplicate, and marker and stream stay as they were |
| Calculations.CalculateAnswers | billing/application/billing_calculator.py:191-257 | from arrival at idle gates: n events and a number p on the price list, or 0.01 where it says nothing for the customer, are answered and stored as n at p, rounded to four decimals, with an hour to live, and the slot is given back |
| Calculations.CalculateRefusesText | billing/application/billing_calculator.py:202-204 | from arrival at idle gates: a price that is no number is a server error, no draft is stored and the slot is given back |
| Calculations.StoredPriceWasListed | billing/application/billing_calculator.py:200-208 | in every run with any faults every stored draft has the price the list held for its customer at some earlier step, or 0.01 where it said nothing, and the rounded product as amount |
| Issuance.ReadDecides | billing/application/invoice_generator.py:124-129 | a read without a fault is answered not found if and only if no hash with fields is live there, and then changes nothing; a live one is what the generate goes on with |
| Issuance.GoneIsNotFound | billing/interfaces/api/incoming/views.py:247-261 | from arrival at idle gates: an invoice that is gone is answered not found, its key stays absent and the slot is given back |
| Issuance.LiveIsIssued | billing/application/invoice_generator.py:118-156 | from arrival at idle gates: a live invoice is answered as it was read, marked issued at the time answered, otherwise unchanged, given another hour, and the slot is given back |
| Issuance.TextAmountFails | billing/application/invoice_generator.py:147-153 | a stored amount that is no number is a server error, after the write |
| Issuance.GoneSentNothing | billing/application/invoice_generator.py:124-129 | a request answered not found has sent gate commands and the read only, whatever faults and commands of others there were |
| Issuance.AnswerIsFinal | billing/interfaces/api/incoming/middleware.py:167-178 | an answered request keeps its answer or dies, and sends nothing but one release |

## Left out

- Floating point: Lua doubles, Python floats and the rounding of `TIME` fractions are replaced by exact micro-tokens, microseconds and decimals; text conversion of numbers, JSON and ISO timestamps is taken to round-trip.
- Expiry granularity: a key is gone exactly at its deadline; Redis keeps deadlines in milliseconds.
- Identifiers: slot and invoice ids are assumed not to repeat (`FreshIds`); the truncation of invoice ids to 16 hex digits is not modelled.
- The redis-py client, its connection pool and its timeouts: a command is one atomic step with the three faults; retries inside the client and pool exhaustion are not modelled. A command of a worker that timed out runs at the time of its step, not later.
- Redis itself: no failover, no eviction under memory pressure, no loss on restart; price lists are written by nobody in the model and hold any value.
- Authentication and header parsing: the tenant is the stripped header value.
- Serializers, HTTP methods and routing beyond the three POST endpoints: a body either fits its endpoint or is a bad request; the checks on ages, periods and value ranges are not modelled.
- Event payload fields: carried to the stream as given; the `properties` encoding is not modelled. The event count is the whole tenant stream, as in the code, so filtering by period or customer is not specified.
- Line items of a draft: only their unit price is kept, since count and amount are stored beside them.
- Logging, health checks, the incident simulation script and the throughput figures in the documents.
- Admission.InFlightBound: assumes holders release within 60 s less twice the clock skew, as the source's comment on `SLOT_TTL_SECONDS` does and SkewMargin.MarginIff shows to be necessary; what holds without it is SlotHistory.PlatformSlowHolders.
- Invoices.InvoiceLifecycle: assumes no late write, which Invoices.WriteKeepsIffLive shows to be exactly the failing case.
- Gateway.Worker.Serve: one worker's code runs against arbitrary commands of others between its steps; several workers running as Dafny methods at once are not modelled, their interleavings are those of `Platform`.
