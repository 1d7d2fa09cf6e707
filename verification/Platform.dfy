/** All requests of all tenants interleaved over one Redis. */
module Platform {
  import opened TenantPlan
  import opened KeySchema
  import opened RedisStore
  import opened Program
  import Bucket = TokenBucket

  /** `log` lists the commands Redis executed, in order. */
  datatype Sys = Sys(store: Store, reqs: map<nat, Req>, log: seq<LogEntry>)

  datatype Item = Item(rid: nat, input: Input)

  function Step(sys: Sys, item: Item): Sys {
    if item.rid !in sys.reqs then sys
    else
      var l := LocalStep(sys.store, sys.reqs[item.rid], item.input);
      Sys(l.store, sys.reqs[item.rid := l.req], sys.log + l.log)
  }

  /** The system after the first `n` scheduled steps. */
  function State(start: Sys, items: seq<Item>, n: nat): Sys
    requires n <= |items|
  {
    if n == 0 then start else Step(State(start, items, n - 1), items[n - 1])
  }

  lemma {:induction false} StateNext(start: Sys, items: seq<Item>, n: nat)
    requires 0 < n <= |items|
    ensures State(start, items, n) == Step(State(start, items, n - 1), items[n - 1])
  {
    hide Step;
  }

  lemma {:induction false} ThreeSteps(start: Sys, items: seq<Item>, n: nat)
    requires n + 3 <= |items|
    ensures State(start, items, n + 3) == Step(Step(Step(State(start, items, n), items[n]), items[n + 1]), items[n + 2])
  {
    hide State, Step;
    StateNext(start, items, n + 1);
    StateNext(start, items, n + 2);
    StateNext(start, items, n + 3);
  }

  lemma {:induction false} ForwardAt(items: seq<Item>, i: nat, j: nat)
    requires Forward(items) && i < j < |items|
    ensures items[i].input.now <= items[j].input.now
  {
  }

  /** Nothing has run: every request is about to enter, and Redis holds price lists only. */
  ghost predicate Initial(sys: Sys) {
    sys.log == []
    && (forall r :: r in sys.reqs ==> sys.reqs[r] == Arrive(sys.reqs[r].call))
    && forall k :: Get(sys.store, k).Present? ==> exists t :: k == Render(Pricing(t))
  }

  /** The Redis clock does not step back. */
  predicate Forward(items: seq<Item>) {
    forall i, j :: 0 <= i < j < |items| ==> items[i].input.now <= items[j].input.now
  }

  /** Generated identifiers do not repeat. */
  predicate FreshIds(items: seq<Item>) {
    forall i, j :: 0 <= i < j < |items| ==> items[i].input.uuid != items[j].input.uuid
  }

  /** No other tenant's id overlaps this one's; colon-free ids never do. */
  predicate Separate(sys: Sys, tenant: string) {
    forall r :: r in sys.reqs ==>
      sys.reqs[r].call.tenant == tenant || !Overlap(sys.reqs[r].call.tenant, tenant)
  }

  /** The store changes exactly as the logged command says, and nowhere else. */
  lemma {:induction false} LocalStepEffect(s: Store, r: Req, inp: Input)
    ensures var l := LocalStep(s, r, inp);
            && l.req.call == r.call && |l.log| <= 1
            && (l.log == [] ==> l.store == s)
            && (l.log != [] ==>
                  var e := l.log[0];
                  var issue := NextIssue(r.call, r.phase);
                  && !Over(r) && issue.Some? && e.call == r.call && e.op == Op(inp.now, issue.value.cmd)
                  && e.key == Render(issue.value.key)
                  && e.reply == Exec(Get(s, e.key), e.op.cmd, e.op.now).reply
                  && l.store == Put(s, e.key, Exec(Get(s, e.key), e.op.cmd, e.op.now).cell))
  {
  }

  /** The command Redis runs in a scheduled step, if any. */
  function Executed(sys: Sys, item: Item): Option<LogEntry> {
    if item.rid !in sys.reqs then None
    else
      var l := LocalStep(sys.store, sys.reqs[item.rid], item.input);
      if l.log == [] then None else Some(l.log[0])
  }

  ghost predicate IssuedBy(sys: Sys, item: Item, e: LogEntry) {
    item.rid in sys.reqs &&
    var r := sys.reqs[item.rid];
    var issue := NextIssue(r.call, r.phase);
    !Over(r) && issue.Some? && e.call == r.call && e.key == Render(issue.value.key)
    && e.op == Op(item.input.now, issue.value.cmd)
  }

  lemma {:induction false} StepEffect(sys: Sys, item: Item)
    ensures var after := Step(sys, item);
            match Executed(sys, item)
            case None => after.store == sys.store && after.log == sys.log
            case Some(e) =>
              var out := Exec(Get(sys.store, e.key), e.op.cmd, e.op.now);
              IssuedBy(sys, item, e) && after.log == sys.log + [e] && e.reply == out.reply
              && after.store == Put(sys.store, e.key, out.cell)
  {
    if item.rid in sys.reqs {
      LocalStepEffect(sys.store, sys.reqs[item.rid], item.input);
      var l := LocalStep(sys.store, sys.reqs[item.rid], item.input);
      hide LocalStep, NextIssue, Exec, Render;
      if l.log == [] { assert sys.log + l.log == sys.log; } else { assert l.log == [l.log[0]]; }
    }
  }

  lemma {:induction false} CallsAreConstant(start: Sys, items: seq<Item>, n: nat)
    requires n <= |items|
    ensures var sys := State(start, items, n);
            sys.reqs.Keys == start.reqs.Keys && forall r :: r in start.reqs ==> sys.reqs[r].call == start.reqs[r].call
  {
    if n > 0 {
      CallsAreConstant(start, items, n - 1);
      var before := State(start, items, n - 1);
      var item := items[n - 1];
      if item.rid in before.reqs { LocalStepEffect(before.store, before.reqs[item.rid], item.input); }
    }
  }

  // ---- Every request of a run is a worker serving it ----

  /** The run as one request lives it: its turns, and the commands of others since the last. */
  datatype Trace = Trace(turns: seq<Turn>, pending: seq<Sent>)

  function TraceOf(start: Sys, items: seq<Item>, n: nat, rid: nat): Trace
    requires n <= |items|
  {
    if n == 0 then Trace([], [])
    else
      var before, item := TraceOf(start, items, n - 1, rid), items[n - 1];
      if item.rid == rid then Trace(before.turns + [Turn(before.pending, item.input)], [])
      else
        match Executed(State(start, items, n - 1), item)
        case None => before
        case Some(e) => Trace(before.turns, before.pending + [Sent(e.key, e.op)])
  }

  /** In every interleaving, each request does and answers exactly what it does when served by
      one worker while the commands of all others arrive in between its steps. */
  lemma {:induction false} RunsAreServed(start: Sys, items: seq<Item>, n: nat, rid: nat)
    requires rid in start.reqs && n <= |items|
    ensures var sys, trace := State(start, items, n), TraceOf(start, items, n, rid);
            var run := Served(start.store, start.reqs[rid], trace.turns);
            rid in sys.reqs && sys.reqs[rid] == run.req && sys.store == AfterAll(run.store, trace.pending)
  {
    hide LocalStep, Served, AfterAll, Exec, Put, Get, NextIssue, Render;
    if n == 0 {
      NothingServed(start.store, start.reqs[rid]);
      return;
    }
    RunsAreServed(start, items, n - 1, rid);
    var sys, item, trace := State(start, items, n - 1), items[n - 1], TraceOf(start, items, n - 1, rid);
    var run := Served(start.store, start.reqs[rid], trace.turns);
    StepEffect(sys, item);
    if item.rid == rid {
      ServedSnoc(start.store, start.reqs[rid], trace.turns, Turn(trace.pending, item.input));
      NothingServed(LocalStep(sys.store, sys.reqs[rid], item.input).store, start.reqs[rid]);
    } else if Executed(sys, item).Some? {
      var e := Executed(sys, item).value;
      AfterAllSnoc(run.store, trace.pending, Sent(e.key, e.op));
    }
  }

  lemma {:induction false} NothingServed(s: Store, r: Req)
    ensures Served(s, r, []) == Local(s, r, []) && AfterAll(s, []) == s
  {
  }

  // ---- The rate gate over whole runs ----

  /** The rate-gate calls of one tenant, in the order Redis ran them. */
  function RateCalls(log: seq<LogEntry>, tenant: string): seq<Bucket.Call> {
    if log == [] then []
    else
      var e := log[|log| - 1];
      RateCalls(log[..|log| - 1], tenant)
      + if e.key == Render(RateLimit(tenant)) then [Bucket.Call(e.op.now, CostOf(e.call.path))] else []
  }

  function RateDecisions(log: seq<LogEntry>, tenant: string): seq<Bucket.Decision> {
    if log == [] then []
    else
      var e := log[|log| - 1];
      RateDecisions(log[..|log| - 1], tenant)
      + if e.key == Render(RateLimit(tenant)) && e.reply.Tokens? then [e.reply.decision] else []
  }

  /** What is admitted to one tenant in a window, by endpoint cost. */
  function AdmittedCost(log: seq<LogEntry>, tenant: string, s: int, t: int): nat {
    if log == [] then 0
    else
      var e := log[|log| - 1];
      AdmittedCost(log[..|log| - 1], tenant, s, t)
      + if RateAdmits(e, tenant, s, t) then CostOf(e.call.path) else 0
  }

  function AdmittedCount(log: seq<LogEntry>, tenant: string, path: string, s: int, t: int): nat {
    if log == [] then 0
    else
      var e := log[|log| - 1];
      AdmittedCount(log[..|log| - 1], tenant, path, s, t)
      + if RateAdmits(e, tenant, s, t) && e.call.path == path then 1 else 0
  }

  predicate RateAdmits(e: LogEntry, tenant: string, s: int, t: int) {
    e.call.tenant == tenant && e.op.cmd.Consume? && e.reply.Tokens? && e.reply.decision.allowed && s <= e.op.now <= t
  }

  lemma {:induction false} RateIssues(call: Request, phase: Phase, tenant: string)
    requires NextIssue(call, phase).Some?
    ensures var i := NextIssue(call, phase).value;
            && (Render(i.key) == Render(RateLimit(tenant)) <==> i.cmd.Consume? && call.tenant == tenant)
            && (i.cmd.Consume? ==> i.key == RateLimit(call.tenant) && phase.AtRateGate?
                                   && i.cmd == Consume(LimitsOf(call.tenant), CostOf(call.path)))
  {
    var i := NextIssue(call, phase).value;
    if Render(i.key) == Render(RateLimit(tenant)) { RenderInjective(i.key, RateLimit(tenant)); }
  }

  ghost predicate RateInvariant(sys: Sys, tenant: string, s: int, t: int) {
    var l, calls := LimitsOf(tenant), RateCalls(sys.log, tenant);
    && Get(sys.store, Render(RateLimit(tenant))) == BucketCell(Bucket.BucketAfter(l, Bucket.Missing, calls))
    && RateDecisions(sys.log, tenant) == Bucket.Decisions(l, Bucket.Missing, calls)
    && AdmittedCost(sys.log, tenant, s, t) == Bucket.Spent(calls, Bucket.Decisions(l, Bucket.Missing, calls), s, t)
  }

  lemma {:induction false} RateLogSnoc(log: seq<LogEntry>, e: LogEntry, tenant: string, s: int, t: int)
    ensures RateCalls(log + [e], tenant) ==
            if e.key == Render(RateLimit(tenant))
            then RateCalls(log, tenant) + [Bucket.Call(e.op.now, CostOf(e.call.path))] else RateCalls(log, tenant)
    ensures RateDecisions(log + [e], tenant) ==
            if e.key == Render(RateLimit(tenant)) && e.reply.Tokens?
            then RateDecisions(log, tenant) + [e.reply.decision] else RateDecisions(log, tenant)
    ensures AdmittedCost(log + [e], tenant, s, t) == AdmittedCost(log, tenant, s, t)
            + if RateAdmits(e, tenant, s, t) then CostOf(e.call.path) else 0
  {
    assert (log + [e])[..|log|] == log;
  }

  lemma {:induction false} RateStep(sys: Sys, item: Item, tenant: string, s: int, t: int)
    requires RateInvariant(sys, tenant, s, t)
    ensures RateInvariant(Step(sys, item), tenant, s, t)
  {
    hide Step, Executed, NextIssue, RateCalls, RateDecisions, AdmittedCost, Exec, Render, LimitsOf, Put, Get;
    StepEffect(sys, item);
    if Executed(sys, item).Some? {
      var e := Executed(sys, item).value;
      var r := sys.reqs[item.rid];
      RateIssues(r.call, r.phase, tenant);
      RateLogSnoc(sys.log, e, tenant, s, t);
      GetPut(sys.store, e.key, Exec(Get(sys.store, e.key), e.op.cmd, e.op.now).cell, Render(RateLimit(tenant)));
      if e.key == Render(RateLimit(tenant)) {
        RateCallLogged(LimitsOf(tenant), RateCalls(sys.log, tenant), Get(sys.store, e.key), e, s, t);
      }
    }
  }

  /** One more call on the bucket key is one more step of the bucket model. */
  lemma {:induction false} RateCallLogged(l: Bucket.Limits, calls: seq<Bucket.Call>, cell: Cell, e: LogEntry,
                                          s: int, t: int)
    requires e.op.cmd == Consume(l, CostOf(e.call.path)) && e.reply == Exec(cell, e.op.cmd, e.op.now).reply
    requires cell == BucketCell(Bucket.BucketAfter(l, Bucket.Missing, calls))
    ensures var more := calls + [Bucket.Call(e.op.now, CostOf(e.call.path))];
            var ds := Bucket.Decisions(l, Bucket.Missing, calls);
            e.reply.Tokens?
            && Exec(cell, e.op.cmd, e.op.now).cell == BucketCell(Bucket.BucketAfter(l, Bucket.Missing, more))
            && Bucket.Decisions(l, Bucket.Missing, more) == ds + [e.reply.decision]
            && Bucket.Spent(more, ds + [e.reply.decision], s, t) ==
               Bucket.Spent(calls, ds, s, t)
               + if e.reply.decision.allowed && s <= e.op.now <= t then CostOf(e.call.path) else 0
  {
    hide *;
    var c := Bucket.Call(e.op.now, CostOf(e.call.path));
    ConsumeIsBucketStep(l, Bucket.BucketAfter(l, Bucket.Missing, calls), c.now, c.cost);
    Bucket.Snoc(l, Bucket.Missing, calls, c);
    Bucket.SpentSnoc(calls, Bucket.Decisions(l, Bucket.Missing, calls), c, e.reply.decision, s, t);
  }

  lemma {:induction false} RateRefinement(start: Sys, items: seq<Item>, n: nat, tenant: string, s: int, t: int)
    requires Initial(start) && n <= |items|
    ensures RateInvariant(State(start, items, n), tenant, s, t)
  {
    if n == 0 {
      NotPricing(RateLimit(tenant), start);
    } else {
      hide *;
      StateNext(start, items, n);
      RateRefinement(start, items, n - 1, tenant, s, t);
      RateStep(State(start, items, n - 1), items[n - 1], tenant, s, t);
    }
  }

  lemma {:induction false} NotPricing(k: Key, start: Sys)
    requires Initial(start) && !k.Pricing?
    ensures Get(start.store, Render(k)) == Absent
  {
    if Get(start.store, Render(k)).Present? {
      var t :| Render(k) == Render(Pricing(t));
      RenderInjective(k, Pricing(t));
    }
  }

  predicate Clocked(calls: seq<Bucket.Call>, latest: int) {
    Bucket.Nondecreasing(calls) && (calls != [] ==> calls[|calls| - 1].now <= latest)
  }

  lemma {:induction false} CallsFollowClock(start: Sys, items: seq<Item>, n: nat, tenant: string)
    requires Initial(start) && Forward(items) && n < |items|
    ensures Clocked(RateCalls(State(start, items, n).log, tenant), items[n].input.now)
  {
    hide *;
    if n == 0 {
      NoCallsAtStart(start, items, tenant, items[0].input.now);
    } else {
      CallsFollowClock(start, items, n - 1, tenant);
      ForwardAt(items, n - 1, n);
      CallsFollowStep(start, items, n, tenant, items[n].input.now);
    }
  }

  lemma {:induction false} NoCallsAtStart(start: Sys, items: seq<Item>, tenant: string, latest: int)
    requires Initial(start)
    ensures Clocked(RateCalls(State(start, items, 0).log, tenant), latest)
  {
  }

  lemma {:induction false} CallsFollowStep(start: Sys, items: seq<Item>, n: nat, tenant: string, latest: int)
    requires 0 < n <= |items| && items[n - 1].input.now <= latest
    requires Clocked(RateCalls(State(start, items, n - 1).log, tenant), items[n - 1].input.now)
    ensures Clocked(RateCalls(State(start, items, n).log, tenant), latest)
  {
    hide State, Step, Executed, IssuedBy, RateCalls, RateDecisions, AdmittedCost, CostOf, Render, Put, Get, Exec;
    var before, item := State(start, items, n - 1), items[n - 1];
    StateNext(start, items, n);
    StepEffect(before, item);
    if Executed(before, item).Some? {
      var e := Executed(before, item).value;
      IssuedNow(before, item, e);
      RateLogSnoc(before.log, e, tenant, 0, 0);
    }
  }

  /** The calls of a whole run follow the clock. */
  lemma {:induction false} RunFollowsClock(start: Sys, items: seq<Item>, n: nat, tenant: string)
    requires Initial(start) && Forward(items) && n <= |items|
    ensures Bucket.Nondecreasing(RateCalls(State(start, items, n).log, tenant))
  {
    hide State, RateCalls, Initial, Forward;
    if n == 0 {
      NoCallsAtStart(start, items, tenant, 0);
    } else {
      CallsFollowClock(start, items, n - 1, tenant);
      CallsFollowStep(start, items, n, tenant, items[n - 1].input.now);
    }
  }

  lemma {:induction false} IssuedNow(sys: Sys, item: Item, e: LogEntry)
    requires IssuedBy(sys, item, e)
    ensures e.op.now == item.input.now
  {
  }

  /** Requests to other guarded paths that the bucket admits in a window. */
  function AdmittedElsewhere(log: seq<LogEntry>, tenant: string, s: int, t: int): nat {
    if log == [] then 0
    else
      var e := log[|log| - 1];
      AdmittedElsewhere(log[..|log| - 1], tenant, s, t)
      + if RateAdmits(e, tenant, s, t) && e.call.path !in {INGEST, CALCULATE, GENERATE} then 1 else 0
  }

  /** Every admitted request, by the price of its endpoint. */
  function AdmittedTokens(log: seq<LogEntry>, tenant: string, s: int, t: int): nat {
    AdmittedCount(log, tenant, INGEST, s, t) + 10 * AdmittedCount(log, tenant, CALCULATE, s, t)
    + 15 * AdmittedCount(log, tenant, GENERATE, s, t) + AdmittedElsewhere(log, tenant, s, t)
  }

  /** The tokens drawn are exactly one an ingest, ten a calculate, fifteen a generate and one
      for anything else. */
  lemma {:induction false} CostsByEndpoint(log: seq<LogEntry>, tenant: string, s: int, t: int)
    ensures AdmittedCost(log, tenant, s, t) == AdmittedTokens(log, tenant, s, t)
  {
    if log != [] { CostsByEndpoint(log[..|log| - 1], tenant, s, t); }
  }

  /** Rate bound of the whole platform: in every interleaving, for every tenant and window,
      admitted ingests + 10 calculates + 15 generates + others are at most burst + rps * time. */
  lemma {:induction false} PlatformWindowBound(start: Sys, items: seq<Item>, n: nat, tenant: string, s: int, t: int)
    requires Initial(start) && Forward(items) && n <= |items| && s <= t
    ensures 1_000_000 * AdmittedTokens(State(start, items, n).log, tenant, s, t)
            <= 1_000_000 * Promised(tenant).burst + Promised(tenant).requestsPerSecond * (t - s)
  {
    var log := State(start, items, n).log;
    RateRefinement(start, items, n, tenant, s, t);
    RunFollowsClock(start, items, n, tenant);
    CostsByEndpoint(log, tenant, s, t);
    Bucket.WindowStays(LimitsOf(tenant), RateCalls(log, tenant), s, t);
    hide State, AdmittedTokens, AdmittedCost;
  }
}
