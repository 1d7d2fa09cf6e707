/** What refused requests cost and touch, and what the token ledger of a tenant says about a
    whole run of the platform. */
module Refusals {
  import opened TenantPlan
  import opened KeySchema
  import opened RedisStore
  import opened Program
  import opened Platform
  import opened Passage
  import Bucket = TokenBucket

  // ---- The ledger of a tenant ----

  /** The cost of every request the rate gate let through, refused later or not. */
  function TotalCharged(log: seq<LogEntry>, tenant: string): nat {
    if log == [] then 0
    else
      var e := log[|log| - 1];
      TotalCharged(log[..|log| - 1], tenant)
      + if e.call.tenant == tenant && e.op.cmd.Consume? && e.reply.Tokens? && e.reply.decision.allowed
        then CostOf(e.call.path) else 0
  }

  lemma {:induction false} TotalChargedSnoc(log: seq<LogEntry>, e: LogEntry, tenant: string)
    ensures TotalCharged(log + [e], tenant) == TotalCharged(log, tenant)
            + if e.call.tenant == tenant && e.op.cmd.Consume? && e.reply.Tokens? && e.reply.decision.allowed
              then CostOf(e.call.path) else 0
  {
    assert (log + [e])[..|log|] == log;
  }

  ghost predicate ChargesMatch(sys: Sys, tenant: string) {
    var l, calls := LimitsOf(tenant), RateCalls(sys.log, tenant);
    TotalCharged(sys.log, tenant) == Bucket.Charged(calls, Bucket.Decisions(l, Bucket.Missing, calls))
  }

  lemma {:induction false} ChargesMatchStep(sys: Sys, item: Item, tenant: string)
    requires ChargesMatch(sys, tenant) && RateInvariant(sys, tenant, 0, 0)
    ensures ChargesMatch(Step(sys, item), tenant)
  {
    hide Step, Executed, NextIssue, RateCalls, RateDecisions, AdmittedCost, TotalCharged, Exec, Render, LimitsOf, Put,
         Get;
    StepEffect(sys, item);
    if Executed(sys, item).Some? {
      var e := Executed(sys, item).value;
      var r := sys.reqs[item.rid];
      RateIssues(r.call, r.phase, tenant);
      RateLogSnoc(sys.log, e, tenant, 0, 0);
      TotalChargedSnoc(sys.log, e, tenant);
      if e.key == Render(RateLimit(tenant)) {
        var l, calls := LimitsOf(tenant), RateCalls(sys.log, tenant);
        RateCallLogged(l, calls, Get(sys.store, e.key), e, 0, 0);
        Bucket.ChargedSnoc(calls, Bucket.Decisions(l, Bucket.Missing, calls),
                           Bucket.Call(e.op.now, CostOf(e.call.path)), e.reply.decision);
      }
    }
  }

  lemma {:induction false} ChargesMatchInvariant(start: Sys, items: seq<Item>, n: nat, tenant: string)
    requires Initial(start) && n <= |items|
    ensures ChargesMatch(State(start, items, n), tenant)
  {
    hide *;
    if n == 0 {
      NothingCharged(start, items, tenant);
    } else {
      StateNext(start, items, n);
      ChargesMatchInvariant(start, items, n - 1, tenant);
      RateRefinement(start, items, n - 1, tenant, 0, 0);
      ChargesMatchStep(State(start, items, n - 1), items[n - 1], tenant);
    }
  }

  lemma {:induction false} NothingCharged(start: Sys, items: seq<Item>, tenant: string)
    requires Initial(start)
    ensures ChargesMatch(State(start, items, 0), tenant)
  {
  }

  lemma {:induction false} PlansAreSteady(tenant: string)
    ensures LimitsOf(tenant).Steady() && LimitsOf(tenant).rate >= 20
  {
  }

  lemma {:induction false} FullBucketMatches(l: Bucket.Limits, clock: int)
    ensures Bucket.Valid(l, Bucket.Missing) && Bucket.Matches(l, Bucket.Missing, Bucket.Eager(l.Full(), clock))
    ensures 0 <= Bucket.Eager(l.Full(), clock).tokens <= l.Full()
  {
  }

  /** Token ledger of the platform: in every interleaving with any faults, expiries and clock
      steps, a tenant's full bucket plus its refill is exactly what the rate gate charged,
      requests the slot gate refused later included, plus what the clamp spilled plus what is
      left, and what is left stays within the bucket. */
  lemma {:induction false} PlatformLedger(start: Sys, items: seq<Item>, n: nat, tenant: string, clock: int)
    requires Initial(start) && n <= |items|
    ensures var log, l := State(start, items, n).log, LimitsOf(tenant);
            var full, calls := Bucket.Eager(l.Full(), clock), RateCalls(log, tenant);
            var left := Bucket.EagerAfter(l, full, calls);
            && l.Full() + Bucket.Gain(l.rate, Bucket.Travel(clock, calls))
               == TotalCharged(log, tenant) * MICRO + Bucket.Spilled(l, full, calls) + left.tokens
            && 0 <= Bucket.Spilled(l, full, calls) && 0 <= left.tokens <= l.Full()
  {
    var log := State(start, items, n).log;
    ChargesMatchInvariant(start, items, n, tenant);
    PlansAreSteady(tenant);
    hide State, Initial, LimitsOf, Bucket.Gain, Bucket.Travel, TotalCharged, RateCalls;
    FullBucketMatches(LimitsOf(tenant), clock);
    Bucket.Ledger(LimitsOf(tenant), Bucket.Missing, Bucket.Eager(LimitsOf(tenant).Full(), clock),
                  RateCalls(log, tenant));
  }

  // ---- The Retry-After header ----

  /** For every shipped plan and every endpoint the header of a rate refusal is one second. */
  lemma {:induction false} ShippedRetryHeader(tenant: string, path: string, level: int)
    requires level >= 0 && !Bucket.Decide(LimitsOf(tenant), level, CostOf(path)).allowed
    ensures var retry := Bucket.Decide(LimitsOf(tenant), level, CostOf(path)).retry;
            retry.After? && Bucket.RetryHeader(retry.seconds) == 1
  {
    hide PlanFor, CostOf;
    var rate, deficit := LimitsOf(tenant).rate, CostOf(path) * Bucket.MICRO - level;
    var scale := rate * Bucket.MICRO;
    assert rate >= 20;
    assert 0 < deficit <= 15 * Bucket.MICRO < scale;
    ProperFraction(deficit, scale);
    assert (-(deficit as real / scale as real)).Floor == -1;
  }

  lemma {:induction false} ProperFraction(part: int, whole: int)
    requires 0 < part < whole
    ensures 0.0 < part as real / whole as real < 1.0
  {
    var x := part as real / whole as real;
    assert x * whole as real == part as real;
  }

  /** Every rate refusal of every run asks to come back after one second. */
  ghost predicate RetryIsOne(sys: Sys) {
    forall r :: r in sys.reqs && AnswerOf(sys.reqs[r].phase).Some? && AnswerOf(sys.reqs[r].phase).value.RateLimited? ==>
      AnswerOf(sys.reqs[r].phase).value.retryAfter == 1
  }

  lemma {:induction false} RefusedNow(s: Store, r: Req, inp: Input)
    ensures var l := LocalStep(s, r, inp);
            var answer := AnswerOf(l.req.phase);
            answer.Some? && answer.value.RateLimited? ==>
              answer == AnswerOf(r.phase)
              || (l.log != [] && l.log[0].op.cmd.Consume? && l.log[0].reply.Tokens? && !l.log[0].reply.decision.allowed
                  && l.log[0].reply.decision.retry.After?
                  && answer.value.retryAfter == Bucket.RetryHeader(l.log[0].reply.decision.retry.seconds))
  {
    hide LocalStep, Exec, DraftFields, IssuedFields, LimitsOf, PlanFor, CostOf, IsHeavy, ShouldGuard, PriceOf,
         AmountFor, CustomerIn, AmountIn, Record;
    LocalStepMoves(s, r, inp);
    LocalStepEffect(s, r, inp);
  }

  lemma {:induction false} RejectionHeader(tenant: string, path: string, calls: seq<Bucket.Call>, now: int)
    ensures var l := LimitsOf(tenant);
            var out := Exec(BucketCell(Bucket.BucketAfter(l, Bucket.Missing, calls)), Consume(l, CostOf(path)), now);
            out.reply.Tokens?
            && (!out.reply.decision.allowed ==>
                  out.reply.decision.retry.After? && Bucket.RetryHeader(out.reply.decision.retry.seconds) == 1)
  {
    hide Exec, LimitsOf, CostOf, Bucket.Level, Bucket.Decide, Bucket.RetryHeader, Bucket.BucketAfter, BucketCell;
    var l := LimitsOf(tenant);
    var b := Bucket.BucketAfter(l, Bucket.Missing, calls);
    ConsumeIsBucketStep(l, b, now, CostOf(path));
    Bucket.AfterIsValid(l, Bucket.Missing, calls);
    Bucket.LevelInRange(l, b, now);
    if !Bucket.Decide(l, Bucket.Level(l, b, now), CostOf(path)).allowed {
      ShippedRetryHeader(tenant, path, Bucket.Level(l, b, now));
    }
  }

  lemma {:induction false} RetryIsOneStep(sys: Sys, item: Item)
    requires RetryIsOne(sys)
    requires item.rid in sys.reqs ==> RateInvariant(sys, sys.reqs[item.rid].call.tenant, 0, 0)
    ensures RetryIsOne(Step(sys, item))
  {
    hide LocalStep, Exec, LimitsOf, RateCalls, RateDecisions, AdmittedCost, Render, Get, Put, NextIssue,
         Bucket.RetryHeader;
    if item.rid in sys.reqs {
      var r := sys.reqs[item.rid];
      StepEffect(sys, item);
      RefusedNow(sys.store, r, item.input);
      if Executed(sys, item).Some? {
        RateIssues(r.call, r.phase, r.call.tenant);
        RejectionHeader(r.call.tenant, r.call.path, RateCalls(sys.log, r.call.tenant), item.input.now);
      }
    }
  }

  /** In every run with any faults, every rate refusal carries `Retry-After: 1`. */
  lemma {:induction false} PlatformRetryHeader(start: Sys, items: seq<Item>, n: nat)
    requires Initial(start) && n <= |items|
    ensures RetryIsOne(State(start, items, n))
  {
    if n == 0 { return; }
    hide *;
    var sys, item := State(start, items, n - 1), items[n - 1];
    PlatformRetryHeader(start, items, n - 1);
    StateNext(start, items, n);
    if item.rid in sys.reqs { RateRefinement(start, items, n - 1, sys.reqs[item.rid].call.tenant, 0, 0); }
    RetryIsOneStep(sys, item);
  }

  // ---- What a refused request did ----

  predicate IsCharge(e: LogEntry, call: Request) {
    e.op.cmd == Consume(LimitsOf(call.tenant), CostOf(call.path)) && e.key == Render(RateLimit(call.tenant))
  }

  predicate IsRefusal(e: LogEntry) {
    match e.op.cmd
    case Consume(_, _) => e.reply.Tokens? && !e.reply.decision.allowed
    case Acquire(_, _, _) => e.reply.Slot? && !e.reply.handle.admitted
    case _ => false
  }

  /** The commands Redis ran for a request so far, by where it is: one charge at most, and it
      comes first; a refused request's last command is its refusal. */
  predicate Spoke(r: Req, log: seq<LogEntry>) {
    (forall i :: 0 < i < |log| ==> !log[i].op.cmd.Consume?)
    && (log != [] && log[0].op.cmd.Consume? ==> IsCharge(log[0], r.call))
    && match r.phase
       case AtRateGate => log == []
       case AtSlotGate => |log| <= 1 && (log != [] ==> log[0].op.cmd.Consume?)
       case Acquiring(_, _, _) => |log| <= 1 && (log != [] ==> log[0].op.cmd.Consume?)
       case Finished(RateLimited(_)) => |log| == 1 && log[0].op.cmd.Consume? && IsRefusal(log[0])
       case Finished(ConcurrencyLimited(_, _)) =>
         1 <= |log| <= 2 && log[|log| - 1].op.cmd.Acquire? && IsRefusal(log[|log| - 1])
         && (|log| == 2 ==> log[0].op.cmd.Consume?)
       case Releasing(_, response) => !response.RateLimited? && !response.ConcurrencyLimited?
       case _ => true
  }

  predicate NotARefusal(phase: Phase) {
    match phase
    case InView(_, _) => true
    case Releasing(_, response) => !response.RateLimited? && !response.ConcurrencyLimited?
    case Finished(response) => !response.RateLimited? && !response.ConcurrencyLimited?
    case _ => false
  }

  /** The view never answers with a refusal of its own. */
  lemma {:induction false} ViewNeverRefuses(call: Request, step: ViewStep, hold: Hold, seen: Reply, inp: Input)
    ensures NotARefusal(EnterView(call, hold))
    ensures BodyFits(call, step) ==> NotARefusal(ViewReceive(call, step, hold, seen, inp))
  {
    hide PriceOf, AmountFor, CustomerIn, AmountIn;
  }

  lemma {:induction false} SpokeStep(s: Store, r: Req, inp: Input, log: seq<LogEntry>)
    requires Spoke(r, log)
    ensures var l := LocalStep(s, r, inp); Spoke(l.req, log + l.log)
  {
    hide LocalStep, Exec, DraftFields, IssuedFields, LimitsOf, PlanFor, CostOf, IsHeavy, ShouldGuard, PriceOf,
         AmountFor, CustomerIn, AmountIn, Record, Render, Get, Put, ViewReceive, EnterView;
    LocalStepMoves(s, r, inp);
    LocalStepEffect(s, r, inp);
    var l := LocalStep(s, r, inp);
    if r.phase.InView? { ViewNeverRefuses(r.call, r.phase.step, r.phase.hold, SeenIn(l, inp), inp); }
    if l.log == [] { assert log + l.log == log; } else { assert l.log == [l.log[0]]; }
  }

  /** However a request is served, with any faults and any commands of others in between: it is
      charged at most once, before anything else; a rate-refused request did nothing but that
      one rejected call, and a slot-refused one nothing but its charge and the refused
      acquire, which inserts nothing. */
  lemma {:induction false} RefusedDidNothingElse(s: Store, call: Request, turns: seq<Turn>)
    ensures var run := Served(s, Arrive(call), turns); Spoke(run.req, run.log)
  {
    hide LocalStep, Spoke, AfterAll;
    if turns == [] {
      NothingSpoken(call);
    } else {
      var before, turn := Served(s, Arrive(call), turns[..|turns| - 1]), turns[|turns| - 1];
      RefusedDidNothingElse(s, call, turns[..|turns| - 1]);
      SpokeStep(AfterAll(before.store, turn.others), before.req, turn.input, before.log);
    }
  }

  lemma {:induction false} NothingSpoken(call: Request)
    ensures Spoke(Arrive(call), [])
  {
  }

  /** The rate gate cannot be passed by: a guarded request whose first step meets no fault is
      charged there, at that step's Redis time, and goes on only if the call was admitted; only
      a gate error lets it through unpaid. */
  lemma {:induction false} FirstStepIsCharge(s: Store, call: Request, turns: seq<Turn>)
    requires Guarded(call) && turns != [] && turns[0].input.fault.NoFault?
    ensures var run := Served(s, Arrive(call), turns);
            run.log != [] && IsCharge(run.log[0], call) && run.log[0].op.now == turns[0].input.now
            && (run.log[0].reply.Tokens? && !run.log[0].reply.decision.allowed ==> run.req.phase.Finished?)
  {
    hide LocalStep, AfterAll, Render, LimitsOf, CostOf;
    var n := |turns| - 1;
    var before := Served(s, Arrive(call), turns[..n]);
    if n == 0 {
      ChargeStep(AfterAll(before.store, turns[0].others), call, turns[0].input);
    } else {
      FirstStepIsCharge(s, call, turns[..n]);
      LocalStepMoves(AfterAll(before.store, turns[n].others), before.req, turns[n].input);
    }
  }

  lemma {:induction false} ChargeStep(s: Store, call: Request, inp: Input)
    requires Guarded(call) && inp.fault.NoFault?
    ensures var l := LocalStep(s, Arrive(call), inp);
            l.log != [] && IsCharge(l.log[0], call) && l.log[0].op.now == inp.now
            && (l.log[0].reply.Tokens? && !l.log[0].reply.decision.allowed ==> l.req.phase.Finished?)
  {
    hide Exec, Render, LimitsOf, CostOf, ShouldGuard, Get, Put;
  }
}
