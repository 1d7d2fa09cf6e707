/** What each endpoint answers and stores, written out: routing, faults, the price that is
    billed, the draft that is stored, the invoice that is issued or not found. Nothing here is
    stated through the functions of the request program that compute it. */
module Answers {
  import opened TenantPlan
  import opened KeySchema
  import opened RedisStore
  import opened Program
  import opened Platform
  import opened Passage
  import Bucket = TokenBucket
  import Semaphore
  import Refusals
  import SlotHistory

  // ---- Routing ----

  /** The first thing a view does: the three routes, then the tenant header, then the body. */
  lemma {:induction false} EntryAnswers(s: Store, r: Req, inp: Input, hold: Hold)
    requires r.phase == InView(Entering, hold) && !inp.fault.Crash?
    ensures var path, body, tenant := r.call.path, r.call.body, r.call.tenant;
            var phase := LocalStep(s, r, inp).req.phase;
            && LocalStep(s, r, inp).store == s && LocalStep(s, r, inp).log == []
            && (path !in {"/api/v1/events/ingest", "/api/v1/billing/calculate", "/api/v1/invoices/generate"} ==>
                  phase == LeaveView(hold, NoSuchRoute))
            && (path in {"/api/v1/events/ingest", "/api/v1/billing/calculate", "/api/v1/invoices/generate"} ==>
                  && (tenant == "" ==> phase == LeaveView(hold, BadRequest))
                  && (body.Malformed? ==> phase == LeaveView(hold, BadRequest))
                  && (tenant != "" && path == "/api/v1/events/ingest" ==>
                        phase == if body.IngestBody? then InView(Claiming, hold) else LeaveView(hold, BadRequest))
                  && (tenant != "" && path == "/api/v1/billing/calculate" ==>
                        phase == if body.CalculateBody? then InView(Counting, hold) else LeaveView(hold, BadRequest))
                  && (tenant != "" && path == "/api/v1/invoices/generate" ==>
                        phase == if body.GenerateBody? then InView(Reading, hold) else LeaveView(hold, BadRequest)))
  {
    hide LeaveView;
  }

  // ---- Faults ----

  predicate NoAnswer(fault: Fault) {
    fault.ErrorBefore? || fault.ReplyLost?
  }

  /** A view whose command errs or loses its reply answers 500, whatever Redis did. */
  lemma {:induction false} ViewFaultAnswers(s: Store, r: Req, inp: Input, hold: Hold)
    requires r.phase.InView? && r.phase.hold == hold && !r.phase.step.Entering? && BodyFits(r.call, r.phase.step)
    requires NoAnswer(inp.fault)
    ensures LocalStep(s, r, inp).req.phase == LeaveView(hold, ServerError)
  {
    hide Exec, Render, Get, Put, LeaveView, Record, DraftFields, IssuedFields;
  }

  /** Both gates fail open: the request goes on, holding nothing. */
  lemma {:induction false} GateFaultsOpen(s: Store, r: Req, inp: Input)
    requires NoAnswer(inp.fault)
    ensures Guarded(r.call) && r.phase.AtRateGate? ==> LocalStep(s, r, inp).req.phase == AtSlotGate
    ensures r.phase.Acquiring? ==> LocalStep(s, r, inp).req.phase == InView(Entering, FailedOpen)
  {
    hide Exec, Render, Get, Put, Record, LimitsOf, CostOf, PlanFor, ShouldGuard;
  }

  /** Requests outside the gates pass them untouched. */
  lemma {:induction false} UngatedPass(s: Store, r: Req, inp: Input)
    requires !inp.fault.Crash?
    ensures !Guarded(r.call) && r.phase.AtRateGate? ==>
              LocalStep(s, r, inp) == Local(s, r.(phase := AtSlotGate), [])
    ensures (!IsHeavy(r.call.path) || r.call.tenant == "") && r.phase.AtSlotGate? ==>
              LocalStep(s, r, inp) == Local(s, r.(phase := InView(Entering, Unguarded)), [])
  {
    hide IsHeavy, ShouldGuard;
  }

  /** The answer of the view survives the release, failed or not. */
  lemma {:induction false} ReleaseKeepsAnswer(s: Store, r: Req, inp: Input)
    requires r.phase.Releasing? && r.phase.hold.Held? && !inp.fault.Crash?
    ensures LocalStep(s, r, inp).req.phase == Finished(r.phase.response)
  {
    hide Exec, Render, Get, Put, Record;
  }

  // ---- The gates of a whole run ----

  /** A guarded request that meets no fault at the rate gate is decided by the bucket its
      tenant's logged calls have left: it goes on to the slot gate, or it is answered 429 with
      one second to wait. */
  lemma {:induction false} RateGateAnswers(start: Sys, items: seq<Item>, n: nat)
    requires Initial(start) && n < |items| && items[n].rid in State(start, items, n).reqs
    requires items[n].input.fault.NoFault?
    requires var r := State(start, items, n).reqs[items[n].rid]; r.phase.AtRateGate? && Guarded(r.call)
    ensures var sys, rid, now := State(start, items, n), items[n].rid, items[n].input.now;
            var call := sys.reqs[rid].call;
            var limits, calls := LimitsOf(call.tenant), RateCalls(sys.log, call.tenant);
            var level := Bucket.Level(limits, Bucket.BucketAfter(limits, Bucket.Missing, calls), now);
            && rid in State(start, items, n + 1).reqs
            && State(start, items, n + 1).reqs[rid].phase
               == if level >= CostOf(call.path) * 1_000_000 then AtSlotGate else Finished(RateLimited(1))
  {
    hide *;
    var sys := State(start, items, n);
    var r := sys.reqs[items[n].rid];
    RateRefinement(start, items, n, r.call.tenant, 0, 0);
    StateNext(start, items, n + 1);
    RateGateStep(sys, items[n], r);
  }

  lemma {:induction false} RateGateStep(sys: Sys, item: Item, r: Req)
    requires item.rid in sys.reqs && sys.reqs[item.rid] == r && item.input.fault.NoFault?
    requires r.phase.AtRateGate? && Guarded(r.call) && RateInvariant(sys, r.call.tenant, 0, 0)
    ensures var limits, calls := LimitsOf(r.call.tenant), RateCalls(sys.log, r.call.tenant);
            var level := Bucket.Level(limits, Bucket.BucketAfter(limits, Bucket.Missing, calls), item.input.now);
            item.rid in Step(sys, item).reqs
            && Step(sys, item).reqs[item.rid].phase
               == if level >= CostOf(r.call.path) * 1_000_000 then AtSlotGate else Finished(RateLimited(1))
  {
    hide LocalStep, Exec, LimitsOf, CostOf, RateCalls, RateDecisions, AdmittedCost, Guarded, Render, Get,
         Bucket.BucketAfter, Bucket.RetryHeader, Bucket.Level, BucketCell;
    var limits, calls := LimitsOf(r.call.tenant), RateCalls(sys.log, r.call.tenant);
    var b := Bucket.BucketAfter(limits, Bucket.Missing, calls);
    ConsumeIsBucketStep(limits, b, item.input.now, CostOf(r.call.path));
    Refusals.RejectionHeader(r.call.tenant, r.call.path, calls, item.input.now);
    RateReplyDecides(sys.store, r, item.input);
  }

  lemma {:induction false} RateReplyDecides(s: Store, r: Req, inp: Input)
    requires r.phase.AtRateGate? && Guarded(r.call) && inp.fault.NoFault?
    ensures var key := Render(RateLimit(r.call.tenant));
            var reply := Exec(Get(s, key), Consume(LimitsOf(r.call.tenant), CostOf(r.call.path)), inp.now).reply;
            var phase := LocalStep(s, r, inp).req.phase;
            && (reply.Tokens? && reply.decision.allowed ==> phase == AtSlotGate)
            && (reply.Tokens? && !reply.decision.allowed && reply.decision.retry.After? ==>
                  phase == Finished(RateLimited(Bucket.RetryHeader(reply.decision.retry.seconds))))
  {
    hide Exec, LimitsOf, CostOf, Render, Get, Put, Record, ShouldGuard, Bucket.RetryHeader;
  }

  /** A heavy request that meets no fault at the slot gate is decided by the holders that
      survive in the log: it enters its view with a slot, or it is answered 429 with their
      number and its tenant's cap. */
  lemma {:induction false} SlotGateAnswers(start: Sys, items: seq<Item>, n: nat)
    requires Initial(start) && FreshIds(items) && n < |items| && items[n].rid in State(start, items, n).reqs
    requires items[n].input.fault.NoFault? && State(start, items, n).reqs[items[n].rid].phase.Acquiring?
    ensures var rid, r := items[n].rid, State(start, items, n).reqs[items[n].rid];
            var cap, evs := Promised(r.call.tenant).maxConcurrency,
                            SlotHistory.SlotEvents(State(start, items, n + 1).log, r.call.tenant);
            && |evs| > 0 && evs[|evs| - 1] == Semaphore.Acquire(items[n].input.now, r.phase.stamp, r.phase.slotId)
            && rid in State(start, items, n + 1).reqs
            && State(start, items, n + 1).reqs[rid].phase
               == var held := |Semaphore.Counted(cap, evs, |evs| - 1)|;
                  if held < cap then InView(Entering, Held(r.phase.slotId, r.phase.stamp, r.phase.sampledAt))
                  else Finished(ConcurrencyLimited(held, cap))
  {
    hide *;
    var sys := State(start, items, n);
    var r := sys.reqs[items[n].rid];
    var e := Executed(sys, items[n]);
    AcquireRuns(sys, items[n], r);
    StateNext(start, items, n + 1);
    StepEffect(sys, items[n]);
    SlotHistory.SlotGateDecision(start, items, n, r.call.tenant, e.value);
    SlotReplyDecides(sys, items[n], r, e.value);
    PlanIsPromised(r.call.tenant);
    AcquireIsLast(sys, items[n], r, e.value);
  }

  lemma {:induction false} PlanIsPromised(tenant: string)
    ensures PlanFor(tenant) == Promised(tenant)
  {
    hide PlanFor, Promised;
  }

  lemma {:induction false} AcquireRuns(sys: Sys, item: Item, r: Req)
    requires item.rid in sys.reqs && sys.reqs[item.rid] == r && item.input.fault.NoFault? && r.phase.Acquiring?
    ensures var e := Executed(sys, item);
            e.Some? && e.value.key == Render(Concurrency(r.call.tenant))
            && e.value.op == Op(item.input.now,
                                Acquire(PlanFor(r.call.tenant).maxConcurrency, r.phase.stamp, r.phase.slotId))
  {
    hide Exec, Render, Get, Put, Record, PlanFor, Receive;
  }

  lemma {:induction false} SlotReplyDecides(sys: Sys, item: Item, r: Req, e: LogEntry)
    requires item.rid in sys.reqs && sys.reqs[item.rid] == r && item.input.fault.NoFault? && r.phase.Acquiring?
    requires Executed(sys, item) == Some(e) && e.reply.Slot?
    ensures var h := e.reply.handle;
            item.rid in Step(sys, item).reqs
            && Step(sys, item).reqs[item.rid].phase
               == if h.admitted then InView(Entering, Held(r.phase.slotId, r.phase.stamp, r.phase.sampledAt))
                  else Finished(ConcurrencyLimited(h.inFlight, PlanFor(r.call.tenant).maxConcurrency))
  {
    hide Exec, Render, Get, Put, Record, PlanFor;
  }

  lemma {:induction false} AcquireIsLast(sys: Sys, item: Item, r: Req, e: LogEntry)
    requires Executed(sys, item) == Some(e) && e.key == Render(Concurrency(r.call.tenant)) && e.op.cmd.Acquire?
    requires Step(sys, item).log == sys.log + [e]
    ensures var evs := SlotHistory.SlotEvents(Step(sys, item).log, r.call.tenant);
            |evs| > 0 && evs[|evs| - 1] == Semaphore.Acquire(e.op.now, e.op.cmd.stamp, e.op.cmd.slotId)
  {
    hide Step, Executed, Render;
    SlotHistory.SlotEventsSnoc(sys.log, e, r.call.tenant);
  }

  // ---- Ingest ----

  predicate IngestCall(call: Request) {
    call.path == "/api/v1/events/ingest" && call.tenant != "" && call.body.IngestBody?
  }

  lemma {:induction false} IngestReachesClaim(s: Store, call: Request, inputs: seq<Input>)
    requires IngestCall(call) && |inputs| >= 3 && FaultFree(inputs, 3)
    requires Seen(Get(s, Render(RateLimit(call.tenant))), inputs[0].now) == Absent
    ensures var run := Solo(s, Arrive(call), inputs, 3);
            run.req == Req(call, InView(Claiming, Unguarded), NO_MARKS) && Alike(s, run.store)
  {
    hide LocalStep, Solo, Get, Render, Alike, Seen;
    LightEnters(s, call, inputs);
    SoloNext(s, Arrive(call), inputs, 2);
    var entered := Solo(s, Arrive(call), inputs, 2);
    EntersView(entered.store, entered.req, inputs[2]);
  }

  lemma {:induction false} Claims(s: Store, r: Req, inp: Input)
    requires r.phase == InView(Claiming, Unguarded) && r.call.body.IngestBody? && inp.fault.NoFault?
    ensures var l, key := LocalStep(s, r, inp), Render(Idem(r.call.tenant, r.call.body.idempotencyKey));
            && l.req.call == r.call
            && if Seen(Get(s, key), inp.now) == Absent
               then l.req.phase == InView(Appending, Unguarded)
                    && Get(l.store, key) == Present(Marker, At(inp.now + 604_800_000_000))
               else l.req.phase == Finished(Accepted(true)) && Get(l.store, key) == Get(s, key)
  {
    hide Render;
  }

  /** What the stream at a key holds. */
  function EntriesIn(c: Cell): seq<StreamEntry>
    requires c.Present? ==> c.value.Stream?
  {
    if c.Absent? then [] else c.value.entries
  }

  predicate StreamOrNone(c: Cell) {
    c.Present? ==> c.value.Stream?
  }

  lemma {:induction false} Appends(s: Store, r: Req, inp: Input)
    requires r.phase == InView(Appending, Unguarded) && r.call.body.IngestBody? && inp.fault.NoFault?
    requires StreamOrNone(Seen(Get(s, Render(Events(r.call.tenant))), inp.now))
    ensures var l, key := LocalStep(s, r, inp), Render(Events(r.call.tenant));
            && l.req.phase == Finished(Accepted(false)) && StreamOrNone(Get(l.store, key))
            && EntriesIn(Get(l.store, key))
               == EntriesIn(Seen(Get(s, key), inp.now)) + [StreamEntry(r.call.body.idempotencyKey, r.call.body.payload)]
  {
    hide Render;
  }

  /** The claim of a fresh ingest and of a repeated one. */
  lemma {:induction false} IngestClaims(s: Store, call: Request, inputs: seq<Input>)
    requires IngestCall(call) && |inputs| >= 4 && FaultFree(inputs, 4)
    requires Seen(Get(s, Render(RateLimit(call.tenant))), inputs[0].now) == Absent
    ensures var run, marker := Solo(s, Arrive(call), inputs, 4), Render(Idem(call.tenant, call.body.idempotencyKey));
            && run.req.call == call
            && Get(run.store, Render(Events(call.tenant))) == Get(s, Render(Events(call.tenant)))
            && if Seen(Get(s, marker), inputs[3].now) == Absent
               then run.req.phase == InView(Appending, Unguarded)
                    && Get(run.store, marker) == Present(Marker, At(inputs[3].now + 604_800_000_000))
               else run.req.phase == Finished(Accepted(true)) && Get(run.store, marker) == Get(s, marker)
  {
    hide LocalStep, Solo, Get, Render, Seen, Alike;
    IngestReachesClaim(s, call, inputs);
    SoloNext(s, Arrive(call), inputs, 3);
    var claiming := Solo(s, Arrive(call), inputs, 3);
    AlikeCell(s, claiming.store, Idem(call.tenant, call.body.idempotencyKey));
    AlikeCell(s, claiming.store, Events(call.tenant));
    Claims(claiming.store, claiming.req, inputs[3]);
    ClaimLeavesStream(claiming.store, claiming.req, inputs[3]);
  }

  lemma {:induction false} ClaimLeavesStream(s: Store, r: Req, inp: Input)
    requires r.phase == InView(Claiming, Unguarded)
    ensures var key := Render(Events(r.call.tenant)); Get(LocalStep(s, r, inp).store, key) == Get(s, key)
  {
    IngestKeys(r);
    if r.call.body.IngestBody? { NotOneKey(Idem(r.call.tenant, r.call.body.idempotencyKey), Events(r.call.tenant)); }
    hide LocalStep, Render, Get;
    OthersUntouched(s, r, inp, Events(r.call.tenant));
  }

  lemma {:induction false} IngestKeys(r: Req)
    ensures r.phase == InView(Claiming, Unguarded) && NextIssue(r.call, r.phase).Some? ==>
              NextIssue(r.call, r.phase).value.key == Idem(r.call.tenant, r.call.body.idempotencyKey)
    ensures r.phase == InView(Appending, Unguarded) && NextIssue(r.call, r.phase).Some? ==>
              NextIssue(r.call, r.phase).value.key == Events(r.call.tenant)
  {
  }

  /** A fault-free ingest, from its arrival at an idle rate gate. Without a live marker it
      leaves one for seven days, adds its one entry at the end of the stream and answers that
      it is no duplicate. */
  lemma {:induction false} FreshIngestAppends(s: Store, call: Request, inputs: seq<Input>)
    requires IngestCall(call) && |inputs| == 5 && FaultFree(inputs, 5)
    requires Seen(Get(s, Render(RateLimit(call.tenant))), inputs[0].now) == Absent
    requires Seen(Get(s, Render(Idem(call.tenant, call.body.idempotencyKey))), inputs[3].now) == Absent
    requires StreamOrNone(Seen(Get(s, Render(Events(call.tenant))), inputs[4].now))
    ensures var run, stream := Solo(s, Arrive(call), inputs, 5), Render(Events(call.tenant));
            && run.req.phase == Finished(Accepted(false))
            && Get(run.store, Render(Idem(call.tenant, call.body.idempotencyKey)))
               == Present(Marker, At(inputs[3].now + 604_800_000_000))
            && StreamOrNone(Get(run.store, stream))
            && EntriesIn(Get(run.store, stream))
               == EntriesIn(Seen(Get(s, stream), inputs[4].now))
                  + [StreamEntry(call.body.idempotencyKey, call.body.payload)]
  {
    var marker, stream := Idem(call.tenant, call.body.idempotencyKey), Events(call.tenant);
    hide LocalStep, Solo, Get, Render, Seen, Alike, StreamOrNone, EntriesIn;
    IngestClaims(s, call, inputs);
    SoloNext(s, Arrive(call), inputs, 4);
    var appending := Solo(s, Arrive(call), inputs, 4);
    NotOneKey(marker, stream);
    IngestKeys(appending.req);
    Appends(appending.store, appending.req, inputs[4]);
    OthersUntouched(appending.store, appending.req, inputs[4], marker);
  }

  /** With a live marker it answers that it is a duplicate and changes neither the marker nor
      the stream. */
  lemma {:induction false} RepeatedIngestIsDuplicate(s: Store, call: Request, inputs: seq<Input>)
    requires IngestCall(call) && |inputs| == 4 && FaultFree(inputs, 4)
    requires Seen(Get(s, Render(RateLimit(call.tenant))), inputs[0].now) == Absent
    requires Seen(Get(s, Render(Idem(call.tenant, call.body.idempotencyKey))), inputs[3].now).Present?
    ensures var run := Solo(s, Arrive(call), inputs, 4);
            && run.req.phase == Finished(Accepted(true))
            && Get(run.store, Render(Events(call.tenant))) == Get(s, Render(Events(call.tenant)))
            && Get(run.store, Render(Idem(call.tenant, call.body.idempotencyKey)))
               == Get(s, Render(Idem(call.tenant, call.body.idempotencyKey)))
  {
    hide LocalStep, Solo, Get, Render, Seen;
    IngestClaims(s, call, inputs);
  }
}
