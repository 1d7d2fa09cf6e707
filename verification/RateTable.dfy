/** The rate gate in numbers: what each tenant gets at once, what it gets back in time, and what
    any window of any run holds. */
module RateTable {
  import opened TenantPlan
  import opened RedisStore
  import opened Program
  import opened Platform
  import Bucket = TokenBucket

  predicate AllAt(calls: seq<Bucket.Call>, now: int) {
    forall i :: 0 <= i < |calls| ==> calls[i].now == now
  }

  /** Calls at one moment only draw from the bucket. */
  lemma {:induction false} DrawnAtOnce(l: Bucket.Limits, calls: seq<Bucket.Call>, now: int)
    requires AllAt(calls, now)
    ensures var left := l.Full() - Bucket.Charged(calls, Bucket.Decisions(l, Bucket.Missing, calls)) * Bucket.MICRO;
            && left >= 0
            && Bucket.BucketAfter(l, Bucket.Missing, calls)
               == if calls == [] then Bucket.Missing else Bucket.Stored(left, now, now + Bucket.BUCKET_TTL)
  {
    if calls != [] {
      var n := |calls| - 1;
      var init, c := calls[..n], calls[n];
      DrawnAtOnce(l, init, now);
      Bucket.GainZero(l.rate);
      assert init + [c] == calls;
      hide Bucket.Decisions, Bucket.BucketAfter, Bucket.Charged, Bucket.Gain, Bucket.Hint;
      var b := Bucket.BucketAfter(l, Bucket.Missing, init);
      Bucket.Snoc(l, Bucket.Missing, init, c);
      Bucket.ChargedSnoc(init, Bucket.Decisions(l, Bucket.Missing, init), c,
                         Bucket.Consume(l, b, c.now, c.cost).decision);
    }
  }

  /** Whether a tenant's idle bucket, after these calls, admits one more. */
  predicate OneMore(tenant: string, calls: seq<Bucket.Call>, now: int, cost: nat) {
    var l := LimitsOf(tenant);
    Bucket.Consume(l, Bucket.BucketAfter(l, Bucket.Missing, calls), now, cost).decision.allowed
  }

  function Drawn(tenant: string, calls: seq<Bucket.Call>): nat {
    Bucket.Charged(calls, Bucket.Decisions(LimitsOf(tenant), Bucket.Missing, calls))
  }

  lemma {:induction false} BurstOf(tenant: string, calls: seq<Bucket.Call>, now: int, cost: nat)
    requires AllAt(calls, now)
    ensures OneMore(tenant, calls, now, cost) <==> Drawn(tenant, calls) + cost <= Promised(tenant).burst
  {
    var l := LimitsOf(tenant);
    DrawnAtOnce(l, calls, now);
    Bucket.GainZero(l.rate);
    hide Bucket.Charged, Bucket.Decisions, Bucket.BucketAfter, Bucket.Gain, Bucket.Hint, Promised;
  }

  /** At one moment an idle bucket admits exactly the burst and refuses the next token. */
  lemma {:induction false} BurstsByTenant(calls: seq<Bucket.Call>, now: int, cost: nat, other: string)
    requires AllAt(calls, now) && other !in TENANT_PLANS
    ensures OneMore("globex", calls, now, cost) <==> Drawn("globex", calls) + cost <= 1000
    ensures OneMore("initech", calls, now, cost) <==> Drawn("initech", calls) + cost <= 200
    ensures OneMore("acme-corp", calls, now, cost) <==> Drawn("acme-corp", calls) + cost <= 100
    ensures OneMore("piedmont", calls, now, cost) <==> Drawn("piedmont", calls) + cost <= 50
    ensures OneMore(other, calls, now, cost) <==> Drawn(other, calls) + cost <= 200
  {
    BurstOf("globex", calls, now, cost);
    BurstOf("initech", calls, now, cost);
    BurstOf("acme-corp", calls, now, cost);
    BurstOf("piedmont", calls, now, cost);
    BurstOf(other, calls, now, cost);
    hide OneMore, Drawn, AllAt;
  }

  /** The hash of a bucket drained at time 0. */
  const DRAINED := Present(Hash(map["tokens" := Num(0), "last_refill" := Num(0)]), At(3_600_000_000))

  /** Whether the script on that hash admits a call after `d` microseconds. */
  predicate EarnedAfter(tenant: string, d: nat, cost: nat) {
    var reply := Exec(DRAINED, Consume(LimitsOf(tenant), cost), d).reply;
    reply.Tokens? && reply.decision.allowed
  }

  lemma {:induction false} EarnedOf(tenant: string, d: nat, cost: nat)
    ensures EarnedAfter(tenant, d, cost)
            <==> Bucket.Min(1_000_000 * Promised(tenant).burst,
                            Promised(tenant).requestsPerSecond * d) >= 1_000_000 * cost
  {
    var l, b := LimitsOf(tenant), Bucket.Stored(0, 0, 3_600_000_000);
    assert BucketCell(b) == DRAINED;
    ConsumeIsBucketStep(l, b, d, cost);
    Bucket.LevelIsTicked(l, b, Bucket.Eager(0, 0), d);
    Bucket.TickClosedForm(l, 0, d);
    hide Exec, BucketCell, Bucket.Level, Bucket.Tick, Bucket.Hint, Promised;
  }

  /** A drained bucket earns exactly its rate, up to its burst, to the microsecond. */
  lemma {:induction false} RefillsByTenant(d: nat, cost: nat, other: string)
    requires other !in TENANT_PLANS
    ensures EarnedAfter("globex", d, cost) <==> Bucket.Min(1_000_000_000, 500 * d) >= 1_000_000 * cost
    ensures EarnedAfter("initech", d, cost) <==> Bucket.Min(200_000_000, 100 * d) >= 1_000_000 * cost
    ensures EarnedAfter("acme-corp", d, cost) <==> Bucket.Min(100_000_000, 50 * d) >= 1_000_000 * cost
    ensures EarnedAfter("piedmont", d, cost) <==> Bucket.Min(50_000_000, 20 * d) >= 1_000_000 * cost
    ensures EarnedAfter(other, d, cost) <==> Bucket.Min(200_000_000, 100 * d) >= 1_000_000 * cost
  {
    EarnedOf("globex", d, cost);
    EarnedOf("initech", d, cost);
    EarnedOf("acme-corp", d, cost);
    EarnedOf("piedmont", d, cost);
    EarnedOf(other, d, cost);
    hide EarnedAfter;
  }

  predicate Within(log: seq<LogEntry>, tenant: string, s: int, t: int, burst: nat, rate: nat) {
    1_000_000 * AdmittedTokens(log, tenant, s, t) <= 1_000_000 * burst + rate * (t - s)
  }

  /** Every window of every run on a forward clock, tenant by tenant. */
  lemma {:induction false} WindowsByTenant(start: Sys, items: seq<Item>, n: nat, s: int, t: int, other: string)
    requires Initial(start) && Forward(items) && n <= |items| && s <= t && other !in TENANT_PLANS
    ensures var log := State(start, items, n).log;
            && Within(log, "globex", s, t, 1000, 500) && Within(log, "initech", s, t, 200, 100)
            && Within(log, "acme-corp", s, t, 100, 50) && Within(log, "piedmont", s, t, 50, 20)
            && Within(log, other, s, t, 200, 100)
  {
    hide State, Initial, Forward, AdmittedTokens;
    PlatformWindowBound(start, items, n, "globex", s, t);
    PlatformWindowBound(start, items, n, "initech", s, t);
    PlatformWindowBound(start, items, n, "acme-corp", s, t);
    PlatformWindowBound(start, items, n, "piedmont", s, t);
    PlatformWindowBound(start, items, n, other, s, t);
  }
}
